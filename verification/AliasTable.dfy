/**
  The table of aliases: 17 buckets, each a linked list to which `add_alias`
  appends.  An alias's bucket depends on its name up to the second slash.

  The reference knows no buckets: it scans every alias ever added, in order,
  for the first whose name is a prefix of the URI that ends at a path boundary.

  Names and URIs are C strings, written without their terminator.
 */
module AliasTable {
  import opened Common

  const BUCKETS: nat := 17
  const WORD: int := 0x1_0000_0000

  /** An alias without its link. */
  datatype Entry = Entry(fakeName: seq<byte>, realName: seq<byte>, kind: int)

  // ----- The hash -----

  /** The first character as an unsigned word; `char` may be signed. */
  ghost function First(c: byte, signed: bool): int {
    if signed && c >= 128 then WORD - 256 + c else c
  }

  /** The end of the part that is hashed. */
  ghost function SegmentEnd(s: seq<byte>, i: nat): (e: nat)
    requires i <= |s|
    ensures i <= e <= |s| && (e < |s| ==> s[e] == SLASH)
    ensures forall k :: i <= k < e ==> s[k] != SLASH
    decreases |s| - i
  {
    if i < |s| && s[i] != SLASH then SegmentEnd(s, i + 1) else i
  }

  ghost function Total(s: seq<byte>): int {
    if s == [] then 0 else Total(s[..|s| - 1]) + s[|s| - 1]
  }

  ghost function Segment(s: seq<byte>): seq<byte>
    requires |s| > 0
  {
    s[1..SegmentEnd(s, 1)]
  }

  ghost function Hash(s: seq<byte>, signed: bool): (h: nat)
    requires |s| > 0
    ensures h < BUCKETS
  {
    (First(s[0], signed) + Total(Segment(s))) % WORD % BUCKETS
  }

  lemma FirstIsWord(c: byte, signed: bool)
    ensures First(c, signed) == First(c, signed) % WORD
  {}

  /** Wrapping a partial sum does not change the wrapped sum. */
  lemma WrapsOnce(sum: int, c: int)
    ensures (sum % WORD + c) % WORD == (sum + c) % WORD
  {}

  /** `get_alias_hash_value`. */
  method HashValue(s: seq<byte>, signed: bool) returns (h: nat)
    requires |s| > 0
    ensures h == Hash(s, signed)
  {
    var hash := if signed && s[0] >= 128 then WORD - 256 + s[0] as int else s[0] as int;
    assert hash == First(s[0], signed);
    hide First;
    var index := 1;
    assert s[1..1] == [];
    FirstIsWord(s[0], signed);
    while index < |s| && s[index] != SLASH
      invariant 1 <= index <= |s| && SegmentEnd(s, 1) == SegmentEnd(s, index)
      invariant hash == (First(s[0], signed) + Total(s[1..index])) % WORD
    {
      assert s[1..index + 1][..index - 1] == s[1..index];
      WrapsOnce(First(s[0], signed) + Total(s[1..index]), s[index]);
      hash := (hash + s[index]) % WORD;
      index := index + 1;
    }
    h := hash % BUCKETS;
  }

  // ----- Matching -----

  /** The alias's name is a prefix of the URI and ends at a path boundary. */
  ghost predicate Matches(e: Entry, uri: seq<byte>)
    requires |e.fakeName| > 0
  {
    var n := |e.fakeName|;
    && n <= |uri| && uri[..n] == e.fakeName
    && (e.fakeName[n - 1] == SLASH || n == |uri| || uri[n] == SLASH)
  }

  ghost predicate Named(es: seq<Entry>) {
    forall i :: 0 <= i < |es| ==> |es[i].fakeName| > 0
  }

  /** The first match in order. */
  ghost function Scan(es: seq<Entry>, uri: seq<byte>): (found: Option<Entry>)
    requires Named(es)
    ensures found.Some? ==> |found.value.fakeName| > 0
  {
    if es == [] then None
    else
      var found := Scan(es[..|es| - 1], uri);
      var e := es[|es| - 1];
      if found.Some? then found else if Matches(e, uri) then Some(e) else None
  }

  // ----- Buckets as sequences -----

  /** What `add_alias` does to a bucket: its last entry is never compared. */
  ghost function Append(bucket: seq<Entry>, e: Entry): seq<Entry> {
    if exists i :: 0 <= i < |bucket| - 1 && bucket[i].fakeName == e.fakeName then bucket else bucket + [e]
  }

  /** The bucket `h` after the aliases `added` have been added in order. */
  ghost function Bucket(added: seq<Entry>, h: nat, signed: bool): (b: seq<Entry>)
    requires Named(added)
    ensures Named(b)
  {
    if added == [] then []
    else
      var before, e := Bucket(added[..|added| - 1], h, signed), added[|added| - 1];
      if Hash(e.fakeName, signed) == h then Append(before, e) else before
  }

  /** `find_alias`. */
  ghost function Find(added: seq<Entry>, uri: seq<byte>, signed: bool): Option<Entry>
    requires Named(added) && |uri| > 0
  {
    Scan(Bucket(added, Hash(uri, signed), signed), uri)
  }

  /** The aliases that hash to `h`. */
  ghost function InBucket(added: seq<Entry>, h: nat, signed: bool): (b: seq<Entry>)
    requires Named(added)
    ensures Named(b)
  {
    if added == [] then []
    else
      InBucket(added[..|added| - 1], h, signed) +
        if Hash(added[|added| - 1].fakeName, signed) == h then [added[|added| - 1]] else []
  }

  lemma {:induction false} ScanFinds(es: seq<Entry>, uri: seq<byte>)
    requires Named(es)
    ensures Scan(es, uri).Some? ==> Scan(es, uri).value in es && Matches(Scan(es, uri).value, uri)
    ensures Scan(es, uri).None? ==> forall i :: 0 <= i < |es| ==> !Matches(es[i], uri)
    decreases |es|
  {
    if es != [] {
      ScanFinds(es[..|es| - 1], uri);
    }
  }

  lemma ScanOneMore(es: seq<Entry>, e: Entry, uri: seq<byte>)
    requires Named(es) && |e.fakeName| > 0
    ensures Named(es + [e])
    ensures Scan(es + [e], uri) ==
      if Scan(es, uri).Some? then Scan(es, uri) else if Matches(e, uri) then Some(e) else None
  {
    assert (es + [e])[..|es|] == es;
  }

  /** Appending, or leaving out an entry whose name is already there: what is found is the same. */
  lemma ScanAppended(bucket: seq<Entry>, e: Entry, uri: seq<byte>)
    requires Named(bucket) && |e.fakeName| > 0
    ensures Named(Append(bucket, e))
    ensures Scan(Append(bucket, e), uri) == Scan(bucket + [e], uri)
  {
    ScanOneMore(bucket, e, uri);
    if i :| 0 <= i < |bucket| - 1 && bucket[i].fakeName == e.fakeName {
      ScanFinds(bucket, uri);
      assert Matches(e, uri) == Matches(bucket[i], uri);
    }
  }

  /** Leaving out repeated names does not change what is found. */
  lemma {:induction false} RepeatsDoNotMatter(added: seq<Entry>, h: nat, signed: bool, uri: seq<byte>)
    requires Named(added)
    ensures Scan(Bucket(added, h, signed), uri) == Scan(InBucket(added, h, signed), uri)
    decreases |added|
  {
    if added != [] {
      var before, e := added[..|added| - 1], added[|added| - 1];
      var bucket, all := Bucket(before, h, signed), InBucket(before, h, signed);
      RepeatsDoNotMatter(before, h, signed, uri);
      if Hash(e.fakeName, signed) == h {
        ScanAppended(bucket, e, uri);
        ScanOneMore(bucket, e, uri);
        ScanOneMore(all, e, uri);
      } else {
        assert all + [] == all;
      }
    }
  }

  // ----- A matching alias is in the URI's bucket -----

  const ROOT: seq<byte> := [SLASH]

  /** Any matching alias but "/" agrees with the URI on the part that is hashed. */
  lemma SameSegment(e: Entry, uri: seq<byte>)
    requires |e.fakeName| > 0 && Matches(e, uri) && e.fakeName != ROOT
    ensures Segment(e.fakeName) == Segment(uri) && e.fakeName[0] == uri[0]
  {
    var f, n := e.fakeName, |e.fakeName|;
    var k := SegmentEnd(f, 1);
    assert forall i :: 0 <= i < n ==> f[i] == uri[..n][i] == uri[i];
    if k == n {
      assert f[n - 1] != SLASH by {
        if n == 1 {
          assert f == [f[0]];
        }
      }
    }
    assert k == SegmentEnd(uri, 1) by {
      EndIs(uri, 1, k);
    }
    assert f[1..k] == uri[..n][1..k] == uri[1..k];
  }

  lemma {:induction false} EndIs(s: seq<byte>, i: nat, e: nat)
    requires i <= e <= |s| && (e < |s| ==> s[e] == SLASH) && forall k :: i <= k < e ==> s[k] != SLASH
    ensures SegmentEnd(s, i) == e
    decreases e - i
  {
    if i < e {
      EndIs(s, i + 1, e);
    }
  }

  /**
    A matching alias hashes to the URI's bucket, except that "/" does so only if
    the first part of the URI sums up right.
   */
  lemma SameBucket(e: Entry, uri: seq<byte>, signed: bool)
    requires |e.fakeName| > 0 && |uri| > 0 && Matches(e, uri)
    ensures Hash(e.fakeName, signed) == Hash(uri, signed) <==>
      e.fakeName != ROOT || (SLASH + Total(Segment(uri))) % WORD % BUCKETS == SLASH % BUCKETS
  {
    if e.fakeName != ROOT {
      SameSegment(e, uri);
    } else {
      assert Segment(ROOT) == [];
      assert uri[0] == uri[..1][0] == SLASH;
    }
  }

  /**
    The buckets give what scanning all aliases gives, unless that is the alias
    "/" and the URI is in another bucket.
   */
  lemma FindIsScan(added: seq<Entry>, uri: seq<byte>, signed: bool)
    requires Named(added) && |uri| > 0
    ensures Find(added, uri, signed) == Scan(added, uri) <==>
      (Scan(added, uri).Some? && Scan(added, uri).value.fakeName == ROOT ==> Hash(ROOT, signed) == Hash(uri, signed))
  {
    var h := Hash(uri, signed);
    RepeatsDoNotMatter(added, h, signed, uri);
    ScanInBucket(added, h, signed, uri);
    ScanFinds(added, uri);
    ScanFinds(InBucket(added, h, signed), uri);
    if Scan(added, uri).Some? {
      SameBucket(Scan(added, uri).value, uri, signed);
      if Scan(InBucket(added, h, signed), uri) == Scan(added, uri) {
        AllInBucket(added, h, signed, Scan(added, uri).value);
      }
    }
  }

  lemma {:induction false} AllInBucket(added: seq<Entry>, h: nat, signed: bool, e: Entry)
    requires Named(added) && e in InBucket(added, h, signed)
    ensures |e.fakeName| > 0 && Hash(e.fakeName, signed) == h
    decreases |added|
  {
    if added != [] && e in InBucket(added[..|added| - 1], h, signed) {
      AllInBucket(added[..|added| - 1], h, signed, e);
    }
  }

  /** If the first match of all is in the bucket, it is the first match there; if there is none, there is none there. */
  lemma {:induction false} ScanInBucket(added: seq<Entry>, h: nat, signed: bool, uri: seq<byte>)
    requires Named(added)
    ensures var found := Scan(added, uri);
            && (found.None? ==> Scan(InBucket(added, h, signed), uri).None?)
            && (found.Some? && Hash(found.value.fakeName, signed) == h ==>
              Scan(InBucket(added, h, signed), uri) == found)
    decreases |added|
  {
    if added != [] {
      var e := added[|added| - 1];
      var before := InBucket(added[..|added| - 1], h, signed);
      ScanInBucket(added[..|added| - 1], h, signed, uri);
      ScanOneMore(before, e, uri);
      assert before + [] == before;
    }
  }

  /** Without an alias "/", the table is as good as a list. */
  lemma WithoutRoot(added: seq<Entry>, uri: seq<byte>, signed: bool)
    requires Named(added) && |uri| > 0
    requires forall i :: 0 <= i < |added| ==> added[i].fakeName != ROOT
    ensures Find(added, uri, signed) == Scan(added, uri)
  {
    FindIsScan(added, uri, signed);
    ScanFinds(added, uri);
  }

  /** An alias for "/" is not found for "/a". */
  lemma RootIsMissed(signed: bool)
    ensures var root, uri := Entry(ROOT, [65], 0), [SLASH, 97];
            Named([root]) && Scan([root], uri) == Some(root) && Find([root], uri, signed) == None
  {
    var root, uri: seq<byte> := Entry(ROOT, [65], 0), [SLASH, 97];
    assert [root][..0] == [] && uri[..1] == ROOT;
    TwoHashes(signed);
    hide Hash;
    assert Bucket([root], 8, signed) == [];
  }

  lemma TwoHashes(signed: bool)
    ensures Hash([SLASH, 97], signed) == 8 && Hash(ROOT, signed) == 13
  {
    var uri: seq<byte> := [SLASH, 97];
    assert Segment(uri) == [97] && Segment(ROOT) == [] && [97 as byte][..0] == [];
    assert Total([97]) == 97;
  }

  lemma NothingScanned(uri: seq<byte>)
    ensures Scan([], uri) == None
  {}

  // ----- The table in place -----

  class Alias {
    const fakeName: seq<byte>
    const realName: seq<byte>
    const kind: int
    var next: Alias?
    ghost const bucket: nat
    ghost const place: nat

    constructor (fakeName: seq<byte>, realName: seq<byte>, kind: int, ghost bucket: nat, ghost place: nat)
      ensures Value() == Entry(fakeName, realName, kind) && next == null && this.bucket == bucket && this.place == place
    {
      this.fakeName, this.realName, this.kind, next := fakeName, realName, kind, null;
      this.bucket, this.place := bucket, place;
    }

    ghost function Value(): Entry { Entry(fakeName, realName, kind) }
  }

  ghost function Values(list: seq<Alias>): (es: seq<Entry>)
    ensures |es| == |list| && forall i :: 0 <= i < |list| ==> es[i] == list[i].Value()
  {
    seq(|list|, i requires 0 <= i < |list| => list[i].Value())
  }

  class Table {
    const signed: bool
    const buckets: array<Alias?>
    ghost var lists: seq<seq<Alias>>
    ghost var nodes: set<Alias>
    ghost var added: seq<Entry>

    /** An alias knows where it is, and its link leads to the next of its bucket. */
    ghost predicate Linked(h: nat, i: nat)
      requires h < |lists| && i < |lists[h]|
      reads this`lists, this`nodes, nodes`next
    {
      var a := lists[h][i];
      a in nodes && a.bucket == h && a.place == i && a.next == if i + 1 < |lists[h]| then lists[h][i + 1] else null
    }

    ghost predicate Headed(h: nat)
      requires h < buckets.Length && h < |lists|
      reads this`lists, buckets
    {
      buckets[h] == if lists[h] == [] then null else lists[h][0]
    }

    ghost predicate ListsOk()
      reads this`lists, this`nodes, buckets, nodes`next
    {
      && buckets.Length == BUCKETS && |lists| == BUCKETS
      && (forall h: nat :: h < BUCKETS ==> Headed(h))
      && (forall h: nat, i: nat :: h < BUCKETS && i < |lists[h]| ==> Linked(h, i))
    }

    /** The lists hold what adding the aliases in order puts there. */
    ghost predicate Agrees()
      reads this`lists, this`added
    {
      && Named(added) && |lists| == BUCKETS
      && forall h: nat :: h < BUCKETS ==> Values(lists[h]) == Bucket(added, h, signed)
    }

    ghost predicate Valid()
      reads this, buckets, nodes
    {
      ListsOk() && Agrees()
    }

    constructor (signed: bool)
      ensures Valid() && added == [] && fresh(buckets)
    {
      this.signed := signed;
      buckets := new Alias?[BUCKETS](_ => null);
      lists := seq(BUCKETS, _ => []);
      nodes, added := {}, [];
    }

    /** Walks a list that is not empty: stops at its last alias, or earlier at one of this name. */
    method FindLast(h: nat, fakeName: seq<byte>) returns (old_: Alias, repeated: bool, ghost n: nat)
      requires ListsOk() && h < BUCKETS && lists[h] != []
      ensures n < |lists[h]| && old_ == lists[h][n]
      ensures repeated ==> n < |lists[h]| - 1 && old_.fakeName == fakeName
      ensures !repeated ==> n == |lists[h]| - 1 && forall i :: 0 <= i < n ==> lists[h][i].fakeName != fakeName
    {
      assert Headed(h) && Linked(h, 0);
      old_, repeated, n := buckets[h], false, 0;
      while old_.next != null
        invariant n < |lists[h]| && old_ == lists[h][n] && Linked(h, n)
        invariant forall i :: 0 <= i < n ==> lists[h][i].fakeName != fakeName
        decreases |lists[h]| - n
      {
        if fakeName == old_.fakeName {
          repeated := true;
          return;
        }
        assert Linked(h, n + 1);
        old_ := old_.next;
        n := n + 1;
      }
    }

    /** Allocates an alias and links it behind `last`, or starts the bucket with it. */
    method Link(h: nat, last: Alias?, fakeName: seq<byte>, realName: seq<byte>, kind: int)
      requires ListsOk() && h < BUCKETS
      requires last == if lists[h] == [] then null else lists[h][|lists[h]| - 1]
      modifies this`lists, this`nodes, buckets, nodes
      ensures ListsOk() && |lists[h]| == |old(lists)[h]| + 1
      ensures lists == old(lists)[h := old(lists)[h] + [lists[h][|lists[h]| - 1]]]
      ensures lists[h][|lists[h]| - 1].Value() == Entry(fakeName, realName, kind)
    {
      ghost var was := lists;
      assert last != null ==> Linked(h, |lists[h]| - 1);
      var alias := new Alias(fakeName, realName, kind, h, |lists[h]|);
      if last != null {
        last.next := alias;
      } else {
        buckets[h] := alias;
      }
      lists := lists[h := lists[h] + [alias]];
      nodes := nodes + {alias};
      forall g: nat, i: nat | g < BUCKETS && i < |lists[g]|
        ensures Linked(g, i)
      {
        assert i < |was[g]| ==> was[g][i] == lists[g][i] && old(Linked(g, i));
      }
      forall g: nat | g < BUCKETS
        ensures Headed(g)
      {
        assert old(Headed(g));
      }
    }

    /** `add_alias`; an empty name or target ends the program before anything is changed. */
    method Add(fakeName: seq<byte>, realName: seq<byte>, kind: int) returns (ok: bool)
      requires Valid()
      modifies this, buckets, nodes
      ensures Valid()
      ensures ok == (fakeName != [] && realName != [])
      ensures added == if ok then old(added) + [Entry(fakeName, realName, kind)] else old(added)
    {
      hide Hash, Bucket;
      if |fakeName| == 0 || |realName| == 0 {
        return false;
      }
      ok := true;
      var h := HashValue(fakeName, signed);
      ghost var e, bucket := Entry(fakeName, realName, kind), Values(lists[h]);
      BucketsAfter(added, e, signed);
      var last: Alias? := null;
      assert Headed(h);
      if buckets[h] != null {
        var repeated;
        ghost var n;
        last, repeated, n := FindLast(h, fakeName);
        if repeated {
          assert bucket[n].fakeName == fakeName;
          assert Append(bucket, e) == bucket;
          added := added + [e];
          return;
        }
      }
      assert Append(bucket, e) == bucket + [e];
      Link(h, last, fakeName, realName, kind);
      added := added + [e];
      assert Values(lists[h]) == bucket + [e];
    }

    /** `find_alias`. */
    method FindAlias(uri: seq<byte>) returns (current: Alias?)
      requires Valid() && |uri| > 0
      ensures match Find(added, uri, signed)
              case None => current == null
              case Some(e) => current != null && current.Value() == e
    {
      hide Scan, Bucket, Hash;
      NothingScanned(uri);
      var h := HashValue(uri, signed);
      assert Headed(h);
      ghost var list, es := lists[h], Bucket(added, h, signed);
      current := buckets[h];
      ghost var n := 0;
      assert es[..0] == [];
      while current != null
        invariant n <= |list| && current == if n < |list| then list[n] else null
        invariant Scan(es[..n], uri) == None
        decreases |list| - n
      {
        assert Linked(h, n);
        assert current.Value() == es[n] && es[..n + 1] == es[..n] + [es[n]];
        ScanOneMore(es[..n], es[n], uri);
        var len := |current.fakeName|;
        if len <= |uri| && uri[..len] == current.fakeName
           && (current.fakeName[len - 1] == SLASH || len == |uri| || uri[len] == SLASH) {
          StopsAtFirst(es, n, uri);
          return;
        }
        current := current.next;
        n := n + 1;
      }
      assert es[..n] == es;
    }
  }

  lemma BucketsAfter(added: seq<Entry>, e: Entry, signed: bool)
    requires Named(added) && |e.fakeName| > 0
    ensures Named(added + [e])
    ensures forall h: nat ::
      Bucket(added + [e], h, signed) ==
        if Hash(e.fakeName, signed) == h then Append(Bucket(added, h, signed), e) else Bucket(added, h, signed)
  {
    assert (added + [e])[..|added|] == added;
  }

  lemma {:induction false} StopsAtFirst(es: seq<Entry>, n: nat, uri: seq<byte>)
    requires Named(es) && n < |es| && Scan(es[..n], uri) == None && Matches(es[n], uri)
    ensures Scan(es, uri) == Some(es[n])
    decreases |es|
  {
    if n == |es| - 1 {
      assert es == es[..n] + [es[n]];
    } else {
      assert es[..|es| - 1][..n] == es[..n];
      StopsAtFirst(es[..|es| - 1], n, uri);
    }
  }
}
