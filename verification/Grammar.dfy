/** A reader of NAR tokens, written from the format rather than from the writers of `Nar`: what the
    writers produce is what it reads, and nothing else. */
module Grammar {
  import opened Common
  import opened Nar

  /** The token says this word. */
  predicate Says(ts: seq<Bytes>, i: nat, word: string) { i < |ts| && ts[i] == Ascii(word) }

  /** One node off the front of the tokens, and what is left. */
  function ReadNode(ts: seq<Bytes>): (r: Option<(Tree, seq<Bytes>)>)
    ensures r.Some? ==> |r.value.1| < |ts|
    decreases |ts|, 0
  {
    if !(Says(ts, 0, "(") && Says(ts, 1, "type")) then None
    else if Says(ts, 2, "symlink") then
      if Says(ts, 3, "target") && Says(ts, 5, ")") then Some((Symlink(ts[4]), ts[6..])) else None
    else if Says(ts, 2, "regular") then
      if Says(ts, 3, "executable") then
        if Says(ts, 4, "") && Says(ts, 5, "contents") && Says(ts, 7, ")") then Some((Regular(true, ts[6]), ts[8..]))
        else None
      else if Says(ts, 3, "contents") && Says(ts, 5, ")") then Some((Regular(false, ts[4]), ts[6..]))
      else None
    else if Says(ts, 2, "directory") then
      match ReadEntries(ts[3..])
      case None => None
      case Some((es, rest)) => if Says(rest, 0, ")") then Some((Dir(es), rest[1..])) else None
    else None
  }

  /** One entry off the front. */
  function ReadEntry(ts: seq<Bytes>): (r: Option<((Bytes, Tree), seq<Bytes>)>)
    ensures r.Some? ==> |r.value.1| < |ts|
    decreases |ts|, 0
  {
    if !(Says(ts, 0, "entry") && Says(ts, 1, "(") && Says(ts, 2, "name") && Says(ts, 4, "node")) then None
    else
      match ReadNode(ts[5..])
      case None => None
      case Some((t, rest)) => if Says(rest, 0, ")") then Some(((ts[3], t), rest[1..])) else None
  }

  /** Entries off the front, up to whatever is no entry. */
  function ReadEntries(ts: seq<Bytes>): (r: Option<(seq<(Bytes, Tree)>, seq<Bytes>)>)
    ensures r.Some? ==> |r.value.1| <= |ts|
    decreases |ts|, 1
  {
    if !Says(ts, 0, "entry") then Some(([], ts))
    else
      match ReadEntry(ts)
      case None => None
      case Some((e, rest)) =>
        match ReadEntries(rest)
        case None => None
        case Some((es, left)) => Some(([e] + es, left))
  }

  lemma Words()
    ensures Ascii("symlink") != Ascii("regular") && Ascii("symlink") != Ascii("directory")
            && Ascii("regular") != Ascii("directory") && Ascii("executable") != Ascii("contents")
            && Ascii("entry") != Ascii(")") && Ascii("") == []
  {
    assert Ascii("symlink")[0] == 115 && Ascii("regular")[0] == 114;
  }

  lemma SymlinkIsRead(target: Bytes, x: seq<Bytes>)
    ensures ReadNode(Tokens(Symlink(target)) + x) == Some((Symlink(target), x))
  {
    assert Tokens(Symlink(target)) == [OPEN, TYPE, SYMLINK, TARGET, target, CLOSE];
  }

  lemma RegularIsRead(executable: bool, contents: Bytes, x: seq<Bytes>)
    ensures ReadNode(Tokens(Regular(executable, contents)) + x) == Some((Regular(executable, contents), x))
  {
    Words();
    if executable {
      assert Tokens(Regular(true, contents)) == [OPEN, TYPE, REGULAR, EXECUTABLE, [], CONTENTS, contents, CLOSE];
    } else {
      assert Tokens(Regular(false, contents)) == [OPEN, TYPE, REGULAR, CONTENTS, contents, CLOSE];
    }
  }

  /** What is written is read back. */
  lemma {:induction false} WrittenIsRead(t: Tree, x: seq<Bytes>)
    ensures ReadNode(Tokens(t) + x) == Some((t, x))
    decreases t, 0
  {
    match t
    case Symlink(target) => SymlinkIsRead(target, x);
    case Regular(executable, contents) => RegularIsRead(executable, contents, x);
    case Dir(es) =>
      Words();
      assert (Tokens(t) + x)[3..] == EntryTokens(es) + ([CLOSE] + x);
      EntriesAreRead(es, [CLOSE] + x);
      assert ([CLOSE] + x)[1..] == x;
  }

  lemma {:induction false} EntryIsRead(e: (Bytes, Tree), x: seq<Bytes>)
    ensures ReadEntry(EntryToken(e) + x) == Some((e, x))
    decreases e, 1
  {
    var ts := EntryToken(e) + x;
    assert e.1 < e;
    assert ts[5..] == Tokens(e.1) + ([CLOSE] + x);
    WrittenIsRead(e.1, [CLOSE] + x);
    assert ([CLOSE] + x)[1..] == x;
  }

  lemma {:induction false} EntriesAreRead(es: seq<(Bytes, Tree)>, x: seq<Bytes>)
    requires !Says(x, 0, "entry")
    ensures ReadEntries(EntryTokens(es) + x) == Some((es, x))
    decreases es, 2
  {
    if es == [] {
      assert EntryTokens(es) + x == x;
    } else {
      var e: (Bytes, Tree), more := es[0], EntryTokens(es[1..]) + x;
      assert e in es;
      assert EntryTokens(es) + x == EntryToken(e) + more;
      assert Says(EntryTokens(es) + x, 0, "entry");
      EntryIsRead(e, more);
      EntriesAreRead(es[1..], x);
      assert es == [es[0]] + es[1..];
    }
  }

  /** And nothing else is read as that tree. */
  lemma {:induction false} ReadIsWritten(ts: seq<Bytes>)
    ensures var r := ReadNode(ts); r.Some? ==> ts == Tokens(r.value.0) + r.value.1
    decreases |ts|, 0
  {
    Words();
    var r := ReadNode(ts);
    if r.Some? {
      var (t, rest) := r.value;
      if t.Symlink? {
        assert ts[..6] == [OPEN, TYPE, SYMLINK, TARGET, ts[4], CLOSE];
      } else if t.Regular? && t.executable {
        assert ts[..8] == [OPEN, TYPE, REGULAR, EXECUTABLE, [], CONTENTS, ts[6], CLOSE];
      } else if t.Regular? {
        assert ts[..6] == [OPEN, TYPE, REGULAR, CONTENTS, ts[4], CLOSE];
      } else {
        EntriesAreWritten(ts[3..]);
        var left := ReadEntries(ts[3..]).value.1;
        assert left == [CLOSE] + rest;
        assert ts == [OPEN, TYPE, DIRECTORY] + ts[3..];
        assert ts == Tokens(t) + rest;
      }
    }
  }

  lemma {:induction false} EntryIsWritten(ts: seq<Bytes>)
    ensures var r := ReadEntry(ts); r.Some? ==> ts == EntryToken(r.value.0) + r.value.1
    decreases |ts|, 0
  {
    var r := ReadEntry(ts);
    if r.Some? {
      ReadIsWritten(ts[5..]);
      var (t, rest) := ReadNode(ts[5..]).value;
      assert rest == [CLOSE] + rest[1..];
      assert ts == [ENTRY, OPEN, NAME, ts[3], NODE] + ts[5..];
    }
  }

  lemma {:induction false} EntriesAreWritten(ts: seq<Bytes>)
    ensures var r := ReadEntries(ts);
            r.Some? ==> ts == EntryTokens(r.value.0) + r.value.1 && !Says(r.value.1, 0, "entry")
    decreases |ts|, 1
  {
    var r := ReadEntries(ts);
    if r.Some? && Says(ts, 0, "entry") {
      var (e, rest) := ReadEntry(ts).value;
      EntryIsWritten(ts);
      EntriesAreWritten(rest);
      var es := ReadEntries(rest).value.0;
      assert ([e] + es)[0] == e && ([e] + es)[1..] == es;
    }
  }

  /** b is an archive of t: the tokens it reads as are the magic and then one node, t. */
  ghost predicate IsArchive(b: Bytes, t: Tree) {
    exists ts :: Reads(b, [Ascii("nix-archive-1")] + ts) && AllShort(ts) && ReadNode(ts) == Some((t, []))
  }

  /** Of a tree whose tokens have u64 lengths there is exactly one archive. */
  lemma ArchiveIs(b: Bytes, t: Tree)
    requires AllShort(Tokens(t))
    ensures IsArchive(b, t) <==> b == Archive(t)
  {
    var magic := [Ascii("nix-archive-1")];
    assert AllShort(magic + Tokens(t)) by { assert |MAGIC| == 13; }
    assert Tokens(t) + [] == Tokens(t);
    WrittenIsRead(t, []);
    ArchiveReads(b, t);
    if IsArchive(b, t) {
      var ts :| Reads(b, magic + ts) && AllShort(ts) && ReadNode(ts) == Some((t, []));
      ReadIsWritten(ts);
      assert ts == Tokens(t);
    }
  }
}
