/** `mergeWithLocalTransient` (store.tsx:191-196): the local documents that
    are not yet Done, then the persisted ones, are put into a JavaScript
    `Map` keyed by id, so a later document replaces an earlier one with the
    same id in place; the map's values are then sorted newest first.

    `new Date(createdAt)` is the parameter `parse` (`None` for an invalid
    date, which is given the time 0 here). */
module Merge {
  import opened Wrappers
  import opened Seqs
  import opened Types
  import opened Sorting

  /** No two documents share an id. */
  predicate UniqueIds(docs: seq<Document>) {
    forall i, j :: 0 <= i < j < |docs| ==> docs[i].id != docs[j].id
  }

  predicate HasId(docs: seq<Document>, id: string) {
    exists x :: x in docs && x.id == id
  }

  /** The last document with that id, which is the value a `Map` ends up
      holding after setting them all in order. */
  function Latest(docs: seq<Document>, id: string): (r: Option<Document>)
    ensures r.Some? <==> HasId(docs, id)
    ensures r.Some? ==> r.value in docs && r.value.id == id
    decreases |docs|
  {
    if docs == [] then None
    else if docs[|docs| - 1].id == id then Some(docs[|docs| - 1])
    else
      var r := Latest(docs[..|docs| - 1], id);
      assert HasId(docs, id) ==> HasId(docs[..|docs| - 1], id) by {
        if HasId(docs, id) {
          var i :| 0 <= i < |docs| && docs[i].id == id;
          assert i < |docs| - 1 && docs[..|docs| - 1][i].id == id;
        }
      }
      r
  }

  /** `map.set(doc.id, doc)` on the map's values in insertion order: an
      existing entry with that id is replaced where it stands, otherwise
      the document goes at the end. */
  function Upsert(entries: seq<Document>, d: Document): (r: seq<Document>)
    ensures d in r
    ensures forall x :: x in r ==> x == d || x in entries
    ensures |entries| <= |r| <= |entries| + 1
    ensures forall i :: 0 <= i < |entries| && entries[i].id != d.id ==> r[i] == entries[i]
    decreases |entries|
  {
    if entries == [] then [d]
    else if entries[0].id == d.id then [d] + entries[1..]
    else [entries[0]] + Upsert(entries[1..], d)
  }

  /** The entry for `d.id` becomes `d` and every other entry stays. */
  lemma {:induction false} UpsertMembers(entries: seq<Document>, d: Document)
    requires UniqueIds(entries)
    ensures d in Upsert(entries, d)
    ensures forall x :: x in Upsert(entries, d) ==> x == d || (x in entries && x.id != d.id)
    ensures forall x :: x in entries && x.id != d.id ==> x in Upsert(entries, d)
    decreases |entries|
  {
    if entries != [] {
      var tail := entries[1..];
      assert entries == [entries[0]] + tail;
      assert UniqueIds(tail) by {
        forall i, j | 0 <= i < j < |tail| ensures tail[i].id != tail[j].id {
          assert entries[i + 1] == tail[i] && entries[j + 1] == tail[j];
        }
      }
      forall x | x in tail ensures x.id != entries[0].id {
        var k :| 0 <= k < |tail| && tail[k] == x;
        assert entries[k + 1] == x;
      }
      if entries[0].id != d.id {
        UpsertMembers(tail, d);
      }
    }
  }

  /** The ids stay distinct, and the id set gains `d.id`. */
  lemma UpsertIds(entries: seq<Document>, d: Document)
    requires UniqueIds(entries)
    ensures UniqueIds(Upsert(entries, d))
    ensures forall id :: HasId(Upsert(entries, d), id) <==> HasId(entries, id) || id == d.id
  {
    UpsertMembers(entries, d);
    UpsertUnique(entries, d);
  }

  lemma {:induction false} UpsertUnique(entries: seq<Document>, d: Document)
    requires UniqueIds(entries)
    ensures UniqueIds(Upsert(entries, d))
    decreases |entries|
  {
    if entries == [] {
    } else if entries[0].id == d.id {
      UniqueTail(entries);
      HeadIdFresh(entries);
      ConsUnique(d, entries[1..]);
    } else {
      var tail := entries[1..];
      UniqueTail(entries);
      HeadIdFresh(entries);
      UpsertUnique(tail, d);
      UpsertMembers(tail, d);
      ConsUnique(entries[0], Upsert(tail, d));
    }
  }

  /** Without its first entry a map still holds each id once. */
  lemma UniqueTail(entries: seq<Document>)
    requires entries != [] && UniqueIds(entries)
    ensures UniqueIds(entries[1..])
  {
    var tail := entries[1..];
    forall i, j | 0 <= i < j < |tail| ensures tail[i].id != tail[j].id {
      assert entries[i + 1] == tail[i] && entries[j + 1] == tail[j];
    }
  }

  /** The first entry's id occurs nowhere after it. */
  lemma HeadIdFresh(entries: seq<Document>)
    requires entries != [] && UniqueIds(entries)
    ensures forall x :: x in entries[1..] ==> x.id != entries[0].id
  {
    forall x | x in entries[1..] ensures x.id != entries[0].id {
      var k :| 0 <= k < |entries[1..]| && entries[1..][k] == x;
      assert entries[k + 1] == x;
    }
  }

  /** Putting an entry with a fresh id in front keeps the ids unique. */
  lemma ConsUnique(x: Document, rest: seq<Document>)
    requires UniqueIds(rest)
    requires forall y :: y in rest ==> y.id != x.id
    ensures UniqueIds([x] + rest)
  {
    var r := [x] + rest;
    forall i, j | 0 <= i < j < |r| ensures r[i].id != r[j].id {
      assert r[j] == rest[j - 1];
      if i > 0 {
        assert r[i] == rest[i - 1];
      }
    }
  }

  /** `docs.forEach(doc => map.set(doc.id, doc))`, starting from `entries`. */
  function SetAll(entries: seq<Document>, docs: seq<Document>): (r: seq<Document>)
    ensures forall x :: x in r ==> x in entries || x in docs
    ensures |entries| <= |r| <= |entries| + |docs|
    decreases |docs|
  {
    if docs == [] then entries else SetAll(Upsert(entries, docs[0]), docs[1..])
  }

  /** After the loop the map holds each id once and exactly the ids seen;
      for an id some document set, the last such document; otherwise the
      starting entry. */
  lemma {:induction false} SetAllGeneral(entries: seq<Document>, docs: seq<Document>)
    requires UniqueIds(entries)
    ensures var r := SetAll(entries, docs);
            UniqueIds(r)
            && (forall id :: HasId(r, id) <==> HasId(entries, id) || HasId(docs, id))
            && (forall x :: x in r ==> (x in entries && Latest(docs, x.id).None?) || Latest(docs, x.id) == Some(x))
            && (forall id :: HasId(docs, id) ==> Latest(docs, id).value in r)
            && (forall x :: x in entries && Latest(docs, x.id).None? ==> x in r)
    decreases |docs|
  {
    if docs != [] {
      var d, tail := docs[0], docs[1..];
      assert docs == [d] + tail;
      UpsertMembers(entries, d);
      UpsertIds(entries, d);
      var next := Upsert(entries, d);
      SetAllGeneral(next, tail);
      var r := SetAll(next, tail);
      forall id ensures HasId(r, id) <==> HasId(entries, id) || HasId(docs, id) {
        HasIdCons(d, tail, id);
      }
      forall x | x in r ensures (x in entries && Latest(docs, x.id).None?) || Latest(docs, x.id) == Some(x) {
        LatestCons(d, tail, x.id);
      }
      forall id | HasId(docs, id) ensures Latest(docs, id).value in r {
        LatestCons(d, tail, id);
        HasIdCons(d, tail, id);
      }
      forall x | x in entries && Latest(docs, x.id).None? ensures x in r {
        LatestCons(d, tail, x.id);
        HasIdCons(d, tail, x.id);
      }
    }
  }

  lemma HasIdCons(d: Document, tail: seq<Document>, id: string)
    ensures HasId([d] + tail, id) <==> d.id == id || HasId(tail, id)
  {
    if HasId(tail, id) {
      var x :| x in tail && x.id == id;
      assert x in [d] + tail;
    }
  }

  /** The last carrier of an id in `[d] + tail` is its last carrier in
      `tail` if there is one, and `d` otherwise. */
  lemma {:induction false} LatestCons(d: Document, tail: seq<Document>, id: string)
    ensures Latest([d] + tail, id) == if HasId(tail, id) then Latest(tail, id)
                                      else if d.id == id then Some(d) else None
    decreases |tail|
  {
    var docs := [d] + tail;
    if tail != [] {
      assert docs[|docs| - 1] == tail[|tail| - 1];
      assert docs[..|docs| - 1] == [d] + tail[..|tail| - 1];
      if tail[|tail| - 1].id != id {
        LatestCons(d, tail[..|tail| - 1], id);
      }
    } else {
      assert docs[..|docs| - 1] == [];
    }
  }

  /** A later list of documents overrides an earlier one: the last carrier
      of an id in `t + p` is its last carrier in `p` whenever `p` has one. */
  lemma {:induction false} LatestConcat(t: seq<Document>, p: seq<Document>, id: string)
    ensures Latest(t + p, id) == if HasId(p, id) then Latest(p, id) else Latest(t, id)
    decreases |p|
  {
    if p == [] {
      assert t + p == t;
    } else {
      var last := p[|p| - 1];
      var init := p[..|p| - 1];
      ConcatLast(t, p);
      if last.id != id {
        assert Latest(t + p, id) == Latest(t + init, id);
        assert Latest(p, id) == Latest(init, id);
        LatestConcat(t, init, id);
        HasIdSnoc(init, last, id);
      }
    }
  }

  lemma HasIdSnoc(init: seq<Document>, last: Document, id: string)
    requires last.id != id
    ensures HasId(init + [last], id) <==> HasId(init, id)
  {
    if HasId(init + [last], id) {
      var x :| x in init + [last] && x.id == id;
      assert x in init;
    }
    if HasId(init, id) {
      var x :| x in init && x.id == id;
      assert x in init + [last];
    }
  }

  // ---------------------------------------------------------------
  // Sorting newest first

  /** `+new Date(createdAt)`, 0 for an invalid date. */
  function TimeKey(parse: string -> Option<int>, createdAt: string): real {
    match parse(createdAt)
    case Some(t) => t as real
    case None => 0.0
  }

  function ByCreated(parse: string -> Option<int>): Document -> real {
    (d: Document) => TimeKey(parse, d.createdAt)
  }

  /** The local documents still in flight: Queued, Processing or Failed. */
  function Transient(current: seq<Document>): (r: seq<Document>)
    ensures forall x :: x in r <==> x in current && x.status != Done
  {
    Filter(current, (d: Document) => d.status != Done)
  }

  /** The merged list, as a function of the persisted and the local
      documents. */
  function Merged(persisted: seq<Document>, current: seq<Document>, parse: string -> Option<int>): (r: seq<Document>)
    ensures SortedDesc(r, ByCreated(parse))
    ensures multiset(r) == multiset(SetAll([], Transient(current) + persisted))
    ensures forall k :: WithKey(r, ByCreated(parse), k) == WithKey(SetAll([], Transient(current) + persisted), ByCreated(parse), k)
  {
    SortDesc(SetAll([], Transient(current) + persisted), ByCreated(parse))
  }

  method MergeWithLocalTransient(persisted: seq<Document>, current: seq<Document>, parse: string -> Option<int>)
    returns (merged: seq<Document>)
    ensures merged == Merged(persisted, current, parse)
  {
    var all := Transient(current) + persisted;
    var entries: seq<Document> := [];
    for i := 0 to |all|
      invariant SetAll(entries, all[i..]) == SetAll([], all)
    {
      assert all[i..][0] == all[i] && all[i..][1..] == all[i + 1..];
      entries := Upsert(entries, all[i]);
    }
    assert all[|all|..] == [];
    merged := SortDesc(entries, ByCreated(parse));
  }

  /** Reordering keeps the ids distinct. */
  lemma UniqueAfterPermutation(a: seq<Document>, b: seq<Document>)
    requires UniqueIds(a) && multiset(a) == multiset(b)
    ensures UniqueIds(b)
  {
    assert NoDup(a);
    NoDupCount(a);
    forall i, j | 0 <= i < j < |b| ensures b[i].id != b[j].id {
      RepeatCount(b, i, j);
      assert b[i] != b[j];
      assert b[i] in multiset(a) && b[j] in multiset(a);
      var p :| 0 <= p < |a| && a[p] == b[i];
      var q :| 0 <= q < |a| && a[q] == b[j];
      assert p != q;
    }
  }

  /** What the merge promises, besides the order stated on `Merged`
      (newest first, ties kept in map order): each id once, exactly the ids of the persisted and in-flight local
      documents, every persisted id with its last persisted document, and
      a document that is not persisted only when it is a local document
      still in flight whose id nothing persisted carries. */
  lemma MergedFacts(persisted: seq<Document>, current: seq<Document>, parse: string -> Option<int>)
    ensures var r := Merged(persisted, current, parse);
            UniqueIds(r) && SortedDesc(r, ByCreated(parse))
            && (forall id :: HasId(r, id) <==> HasId(persisted, id) || HasId(Transient(current), id))
            && (forall id :: HasId(persisted, id) ==> Latest(persisted, id).value in r)
            && (forall x :: x in r && x !in persisted ==>
                  x in current && x.status != Done && !HasId(persisted, x.id))
  {
    var t := Transient(current);
    var all := t + persisted;
    SetAllGeneral([], all);
    var m := SetAll([], all);
    var r := Merged(persisted, current, parse);
    assert multiset(r) == multiset(m);
    UniqueAfterPermutation(m, r);
    forall x ensures x in r <==> x in m {
      assert x in r <==> x in multiset(r);
      assert x in m <==> x in multiset(m);
    }
    forall id ensures HasId(r, id) <==> HasId(persisted, id) || HasId(t, id) {
      assert HasId(all, id) <==> HasId(persisted, id) || HasId(t, id) by {
        LatestConcat(t, persisted, id);
      }
      if HasId(r, id) {
        var x :| x in r && x.id == id;
        assert x in m;
      }
      if HasId(m, id) {
        var x :| x in m && x.id == id;
        assert x in r;
      }
    }
    forall id | HasId(persisted, id) ensures Latest(persisted, id).value in r {
      LatestConcat(t, persisted, id);
    }
    forall x | x in r && x !in persisted
      ensures x in current && x.status != Done && !HasId(persisted, x.id)
    {
      LatestConcat(t, persisted, x.id);
    }
  }
}
