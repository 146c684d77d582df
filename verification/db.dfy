/** The document store the handlers run against, reduced to what they use: a table is
    the sequence of its documents in insertion order, `insert` appends with a fresh id,
    `patch` rewrites the document with a given id, `.unique()` turns a match list into
    "none, the one match, or an error", and `order("desc")` reverses insertion order. */
module Db {
  import opened Common

  type Id = nat

  /** A stored document: the id the store assigned and the record's fields. */
  datatype Doc<+T> = Doc(id: Id, value: T)

  type Table<T> = seq<Doc<T>>

  /** Ids are handed out in insertion order: the document at position k has id k. */
  predicate WellFormed<T>(t: Table<T>) {
    forall i :: 0 <= i < |t| ==> t[i].id == i
  }

  predicate Has<T>(t: Table<T>, id: Id) {
    exists i :: 0 <= i < |t| && t[i].id == id
  }

  /** Ids strictly increase along `s` (insertion order). */
  predicate IdsAscending<T>(s: seq<Doc<T>>) {
    forall i, j :: 0 <= i < j < |s| ==> s[i].id < s[j].id
  }

  /** Ids strictly decrease along `s` (newest first). */
  predicate IdsDescending<T>(s: seq<Doc<T>>) {
    forall i, j :: 0 <= i < j < |s| ==> s[i].id > s[j].id
  }

  /** `db.insert`: appends the record and returns its id, which no earlier document has. */
  function Insert<T>(t: Table<T>, v: T): (r: (Table<T>, Id))
    ensures |r.0| == |t| + 1 && r.0[..|t|] == t && r.0[|t|] == Doc(r.1, v)
    ensures WellFormed(t) ==> WellFormed(r.0) && !Has(t, r.1)
  {
    (t + [Doc(|t|, v)], |t|)
  }

  /** `db.patch`: applies `f` to the fields of the document with this id and leaves every
      other document as it was; throws when no document has the id. */
  function Patch<T>(t: Table<T>, id: Id, f: T -> T): (r: Result<Table<T>>)
    ensures r.Err? <==> !Has(t, id)
    ensures r.Err? ==> r.error == NotFound
    ensures r.Ok? ==> |r.value| == |t|
    ensures r.Ok? ==> forall i :: 0 <= i < |t| ==>
              r.value[i] == if t[i].id == id then Doc(id, f(t[i].value)) else t[i]
    ensures r.Ok? && WellFormed(t) ==> WellFormed(r.value)
  {
    if Has(t, id) then
      Ok(seq(|t|, i requires 0 <= i < |t| => if t[i].id == id then Doc(id, f(t[i].value)) else t[i]))
    else
      Err(NotFound)
  }

  /** `.unique()`: no match, the single match, or an error when several documents match. */
  function Unique<T>(matches: seq<T>): (r: Result<Option<T>>)
    ensures r.Err? <==> |matches| > 1
    ensures r.Err? ==> r.error == NotUnique
    ensures r == Ok(None) <==> |matches| == 0
    ensures r.Ok? && r.value.Some? ==> r.value.value in matches
  {
    if |matches| == 0 then Ok(None)
    else if |matches| == 1 then Ok(Some(matches[0]))
    else Err(NotUnique)
  }

  /** `order("desc").take(n)`: the `n` newest documents of `s`, newest first. */
  function Newest<T>(s: seq<Doc<T>>, n: nat): (r: seq<Doc<T>>)
    ensures |r| == Min(n, |s|)
    ensures forall d :: d in r ==> d in s
    ensures IdsAscending(s) ==> IdsDescending(r)
    ensures IdsAscending(s) ==> forall d, e :: d in r && e in s && e !in r ==> e.id < d.id
  {
    NewestOrder(s, n);
    Reverse(s)[..Min(n, |s|)]
  }

  lemma NewestOrder<T>(s: seq<Doc<T>>, n: nat)
    ensures var r := Reverse(s)[..Min(n, |s|)];
      && (forall d :: d in r ==> d in s)
      && (IdsAscending(s) ==> IdsDescending(r))
      && (IdsAscending(s) ==> forall d, e :: d in r && e in s && e !in r ==> e.id < d.id)
  {
    var rev := Reverse(s);
    ReverseMembers(s);
    var m := Min(n, |s|);
    assert forall d :: d in rev[..m] ==> d in rev;
    if IdsAscending(s) {
      ReverseIdsDescending(s);
      PrefixIsNewer(rev, m);
    }
  }

  lemma ReverseIdsDescending<T>(s: seq<Doc<T>>)
    requires IdsAscending(s)
    ensures IdsDescending(Reverse(s))
  {
    var rev := Reverse(s);
    forall i, j | 0 <= i < j < |rev| ensures rev[i].id > rev[j].id {
      assert rev[i] == s[|s| - 1 - i] && rev[j] == s[|s| - 1 - j];
    }
  }

  /** In a newest-first list, whatever lies past a prefix is older than all of the prefix. */
  lemma PrefixIsNewer<T>(s: seq<Doc<T>>, m: nat)
    requires IdsDescending(s) && m <= |s|
    ensures forall d, e :: d in s[..m] && e in s && e !in s[..m] ==> e.id < d.id
  {
    assert forall k :: 0 <= k < m ==> s[..m][k] == s[k];
    forall d, e | d in s[..m] && e in s && e !in s[..m] ensures e.id < d.id {
      var j :| 0 <= j < m && s[..m][j] == d;
      var k :| 0 <= k < |s| && s[k] == e;
      assert s[j] == d;
    }
  }

  /** Filtering keeps insertion order. */
  lemma {:induction false} FilterIdsAscending<T(!new)>(s: seq<Doc<T>>, p: Doc<T> -> bool)
    ensures IdsAscending(s) ==> IdsAscending(Filter(s, p))
  {
    if |s| > 0 && IdsAscending(s) {
      FilterIdsAscending(s[1..], p);
      var rest := Filter(s[1..], p);
      if p(s[0]) {
        forall d | d in rest ensures s[0].id < d.id {
          var k :| 0 <= k < |s[1..]| && s[1..][k] == d;
          assert s[k + 1] == d;
        }
        ConsAscending(s[0], rest);
        assert Filter(s, p) == [s[0]] + rest;
      }
    }
  }

  lemma ConsAscending<T>(x: Doc<T>, rest: seq<Doc<T>>)
    requires IdsAscending(rest) && forall d :: d in rest ==> x.id < d.id
    ensures IdsAscending([x] + rest)
  {
    var f := [x] + rest;
    forall i, j | 0 <= i < j < |f| ensures f[i].id < f[j].id {
      assert f[j] == rest[j - 1];
      if i > 0 { assert f[i] == rest[i - 1]; }
    }
  }

  /** In a well-formed table the document with id `k` sits at position `k`. */
  lemma WellFormedAt<T>(t: Table<T>, d: Doc<T>)
    requires WellFormed(t) && d in t
    ensures d.id < |t| && t[d.id] == d
  {
  }
}
