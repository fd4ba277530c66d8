/** The two lookups of src/store/rocks.rs: facts found through either secondary index, joined
    with whoever holds their bytes. */
module Lookup {
  import opened Common
  import opened Facts
  import opened Merkle
  import opened Store
  import opened Keys

  /** The stored facts whose identity is among `keys`. */
  ghost predicate Lists(t: Table, keys: set<PathKey>, rows: seq<Attestation>) {
    forall a :: a in rows <==> KeyOf(a) in keys && KeyOf(a) in t && t[KeyOf(a)] == a
  }

  /** The simple join: a stored fact with the nonempty set of its holders. */
  ghost predicate Joined(t: Table, rel: set<Held>, a: Attestation, os: set<Bytes>) {
    KeyOf(a) in t && t[KeyOf(a)] == a && Usable(a) && os != {} && AreHolders(rel, a.narHash, os)
  }

  /** The body that an index entry (k, h) names. */
  method AttAt(s: FactStore, h: Hash, k: PathKey) returns (a: Option<Attestation>)
    requires s.Valid()
    ensures k in s.attPath && s.attPath[k] == h ==> k in s.Table() && a == Some(s.Table()[k]) && KeyOf(a.value) == k
  {
    assert k in s.attPath ==> RowOk(s.hash, s.att, k, s.attPath[k]);
    a := if RowKey(h, k) in s.att then Some(s.att[RowKey(h, k)]) else None;
  }

  /** Index entries that name stored bodies. */
  ghost predicate Entries(path: map<PathKey, Hash>, entries: map<PathKey, Hash>) {
    forall k :: k in entries ==> k in path && path[k] == entries[k]
  }

  /** The bodies that index entries name. */
  method RowsOf(s: FactStore, entries: map<PathKey, Hash>) returns (rows: seq<Attestation>)
    requires s.Valid() && Entries(s.attPath, entries)
    ensures Lists(s.Table(), entries.Keys, rows)
  {
    rows := [];
    var todo := entries.Keys;
    while todo != {}
      invariant todo <= entries.Keys && Lists(s.Table(), entries.Keys - todo, rows)
      decreases |todo|
    {
      var k :| k in todo;
      var a := AttAt(s, entries[k], k);
      assert entries.Keys - (todo - {k}) == (entries.Keys - todo) + {k};
      if a.Some? {
        rows := rows + [a.value];
      }
      todo := todo - {k};
    }
    assert entries.Keys - todo == entries.Keys;
  }

  /** By hash part, or by a shorter prefix of one: through att_path. */
  method LookupHashPart(s: FactStore, p: Possession, hashPart: string) returns (out: seq<(Attestation, set<Bytes>)>)
    requires s.Valid() && p.Valid()
    ensures forall a, os :: (a, os) in out <==> hashPart <= HashPartOf(a.storePath) && Joined(s.Table(), p.rel, a, os)
  {
    var entries := map k | k in s.attPath && hashPart <= k.hashPart :: s.attPath[k];
    var rows := RowsOf(s, entries);
    out := p.LookupAtts(rows);
  }

  /** The entries of att_nar under one NAR hash, with the identity's parts turned round. */
  function Turned(nar: map<NarKey, Hash>, narHash: Bytes): map<PathKey, Hash> {
    map n | n in nar && n.narHash == narHash :: PathKey(n.hashPart, n.narHash) := nar[n]
  }

  lemma TurnedIs(hash: HashFn, att: Rows, path: map<PathKey, Hash>, nar: map<NarKey, Hash>, narHash: Bytes, k: PathKey)
    requires RowsOk(hash, att, path, nar)
    ensures k in Turned(nar, narHash) <==> k in path && k.narHash == narHash
    ensures k in Turned(nar, narHash) ==> Turned(nar, narHash)[k] == path[k]
  {
    if k in Turned(nar, narHash) {
      var n :| n in nar && n.narHash == narHash && PathKey(n.hashPart, n.narHash) == k;
      assert n == Flip(k);
    }
    if k in path && k.narHash == narHash {
      assert Flip(k) in nar && PathKey(Flip(k).hashPart, Flip(k).narHash) == k;
    }
  }

  /** By NAR hash: through att_nar. */
  method LookupNarHash(s: FactStore, p: Possession, narHash: Bytes) returns (out: seq<(Attestation, set<Bytes>)>)
    requires s.Valid() && p.Valid()
    ensures forall a, os :: (a, os) in out <==> a.narHash == narHash && Joined(s.Table(), p.rel, a, os)
  {
    var entries := Turned(s.attNar, narHash);
    forall k
      ensures k in entries <==> k in s.attPath && k.narHash == narHash
      ensures k in entries ==> entries[k] == s.attPath[k]
    {
      TurnedIs(s.hash, s.att, s.attPath, s.attNar, narHash, k);
    }
    var rows := RowsOf(s, entries);
    out := p.LookupAtts(rows);
  }
}
