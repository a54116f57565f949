/** Two doubly linked lists threaded through one array of records with a sentinel at index 0. */
module EventLinks {
  import opened Agenda

  datatype Kind = NONE | CYCLES | TIME

  datatype Event = Event(kind: Kind, time: nat, prev: nat, next: nat)

  function First(ids: seq<nat>): nat {
    if ids == [] then 0 else ids[0]
  }

  function Before(ids: seq<nat>, k: nat): nat
    requires k <= |ids|
  {
    if k == 0 then 0 else ids[k - 1]
  }

  function From(ids: seq<nat>, k: nat): nat {
    if k < |ids| then ids[k] else 0
  }

  /** The links of ids are mutually inverse and end at the sentinel on both sides. */
  predicate Linked(ev: seq<Event>, ids: seq<nat>) {
    |ev| == NUM_EVENTS && Events(ids) && Distinct(ids) &&
    forall k :: 0 <= k < |ids| ==> ev[ids[k]].prev == Before(ids, k) && ev[ids[k]].next == From(ids, k + 1)
  }

  /** The `type` field tells which list an event is in; stale links of the others do not matter. */
  predicate Typed(ev: seq<Event>, cyc: seq<nat>, tim: seq<nat>) {
    |ev| == NUM_EVENTS && ev[0].kind == NONE &&
    forall i :: 1 <= i < NUM_EVENTS ==>
      ev[i].kind == if i in cyc then CYCLES else if i in tim then TIME else NONE
  }

  function Times(ev: seq<Event>): (t: seq<nat>)
    ensures |t| == |ev|
  {
    seq(|ev|, i requires 0 <= i < |ev| => ev[i].time)
  }

  // ---------------------------------------------------------- splicing in

  /** Links of i set to p and n, and theirs to i, the sentinel apart (cycInt.c:163-170). */
  function Spliced(ev: seq<Event>, p: nat, i: nat, n: nat): seq<Event>
    requires |ev| == NUM_EVENTS && p < NUM_EVENTS && IsEvent(i) && n < NUM_EVENTS
  {
    var ev1 := ev[i := ev[i].(prev := p, next := n)];
    var ev2 := if p != 0 then ev1[p := ev1[p].(next := i)] else ev1;
    if n != 0 then ev2[n := ev2[n].(prev := i)] else ev2
  }

  lemma SplicedElsewhere(ev: seq<Event>, p: nat, i: nat, n: nat, j: nat)
    requires |ev| == NUM_EVENTS && p < NUM_EVENTS && IsEvent(i) && n < NUM_EVENTS && j < NUM_EVENTS
    ensures Spliced(ev, p, i, n)[j].time == ev[j].time && Spliced(ev, p, i, n)[j].kind == ev[j].kind
    ensures j != p && j != i && j != n ==> Spliced(ev, p, i, n)[j] == ev[j]
  {
  }

  lemma SplicedAt(ev: seq<Event>, p: nat, i: nat, n: nat, j: nat)
    requires |ev| == NUM_EVENTS && p < NUM_EVENTS && IsEvent(i) && n < NUM_EVENTS && IsEvent(j)
    requires p != i && n != i && (p == n ==> p == 0)
    ensures var e := Spliced(ev, p, i, n)[j];
      e.prev == (if j == i then p else if j == n then i else ev[j].prev) &&
      e.next == (if j == i then n else if j == p then i else ev[j].next)
  {
  }

  lemma DistinctAt(ids: seq<nat>, j: nat, k: nat)
    requires Events(ids) && Distinct(ids) && j < |ids| && k < |ids|
    ensures ids[j] == ids[k] <==> j == k
    ensures IsEvent(ids[j])
  {
  }

  lemma LinkAt(ev: seq<Event>, ids: seq<nat>, k: nat)
    requires Linked(ev, ids) && k < |ids|
    ensures |ev| == NUM_EVENTS && IsEvent(ids[k])
    ensures ev[ids[k]].prev == Before(ids, k) < NUM_EVENTS && ev[ids[k]].next == From(ids, k + 1) < NUM_EVENTS
  {
    hide Distinct;
  }

  lemma LinkedParts(ev: seq<Event>, ids: seq<nat>)
    requires Linked(ev, ids)
    ensures |ev| == NUM_EVENTS && Events(ids) && Distinct(ids)
  {
  }

  /** r is ids with i put in at place k. */
  predicate IsSplice(ids: seq<nat>, k: nat, i: nat, r: seq<nat>) {
    k <= |ids| && |r| == |ids| + 1 &&
    forall j {:trigger r[j]} :: 0 <= j < |r| ==> r[j] == if j < k then ids[j] else if j == k then i else ids[j - 1]
  }

  lemma SpliceEntries(ids: seq<nat>, k: nat, i: nat, r: seq<nat>, m: nat)
    requires IsSplice(ids, k, i, r) && m < |r|
    ensures r[m] == if m < k then ids[m] else if m == k then i else ids[m - 1]
    ensures Before(r, m) == if m <= k then Before(ids, m) else if m == k + 1 then i else Before(ids, m - 1)
    ensures From(r, m + 1) == if m + 1 < k then From(ids, m + 1) else if m + 1 == k then i else From(ids, m)
  {
  }

  /** The neighbours of place k. */
  lemma Neighbours(ids: seq<nat>, k: nat, i: nat)
    requires Events(ids) && Distinct(ids) && k <= |ids| && IsEvent(i) && i !in ids
    ensures var p, n := Before(ids, k), From(ids, k);
      p < NUM_EVENTS && n < NUM_EVENTS && p != i && n != i && (p == n ==> p == 0)
    ensures forall m :: 0 <= m < |ids| ==>
      IsEvent(ids[m]) && ids[m] != i &&
      (ids[m] == Before(ids, k) <==> m + 1 == k) && (ids[m] == From(ids, k) <==> m == k)
  {
    forall m | 0 <= m < |ids|
      ensures IsEvent(ids[m]) && ids[m] != i &&
        (ids[m] == Before(ids, k) <==> m + 1 == k) && (ids[m] == From(ids, k) <==> m == k)
    {
      assert ids[m] in ids;
      DistinctAt(ids, m, m);
      if k > 0 { DistinctAt(ids, m, k - 1); }
      if k < |ids| { DistinctAt(ids, m, k); }
    }
  }

  lemma SpliceLink(ev: seq<Event>, ids: seq<nat>, k: nat, i: nat, r: seq<nat>, m: nat)
    requires Linked(ev, ids) && IsEvent(i) && i !in ids
    requires IsSplice(ids, k, i, r) && m < |r|
    ensures Before(ids, k) < NUM_EVENTS && From(ids, k) < NUM_EVENTS && IsEvent(r[m])
    ensures var e := Spliced(ev, Before(ids, k), i, From(ids, k))[r[m]];
      |Spliced(ev, Before(ids, k), i, From(ids, k))| == NUM_EVENTS &&
      e.prev == Before(r, m) && e.next == From(r, m + 1)
  {
    LinkedParts(ev, ids);
    SpliceEntries(ids, k, i, r, m);
    hide Spliced, Linked, Distinct, Events, IsSplice, Before, From;
    Neighbours(ids, k, i);
    var p, n := Before(ids, k), From(ids, k);
    SplicedLength(ev, p, i, n);
    SplicedAt(ev, p, i, n, r[m]);
    if m < k {
      LinkAt(ev, ids, m);
    } else if m > k {
      LinkAt(ev, ids, m - 1);
    }
  }

  lemma SpliceLinks(ev: seq<Event>, ids: seq<nat>, k: nat, i: nat)
    requires Linked(ev, ids) && k <= |ids| && IsEvent(i) && i !in ids
    ensures Before(ids, k) < NUM_EVENTS && From(ids, k) < NUM_EVENTS
    ensures Linked(Spliced(ev, Before(ids, k), i, From(ids, k)), ids[..k] + [i] + ids[k..])
  {
    var r := ids[..k] + [i] + ids[k..];
    assert IsSplice(ids, k, i, r);
    hide Spliced, Before, From, IsSplice;
    LinkedParts(ev, ids);
    SpliceLink(ev, ids, k, i, r, k);
    SpliceShape(ids, k, i, r);
    var ev' := Spliced(ev, Before(ids, k), i, From(ids, k));
    forall m | 0 <= m < |r| ensures ev'[r[m]].prev == Before(r, m) && ev'[r[m]].next == From(r, m + 1) {
      SpliceLink(ev, ids, k, i, r, m);
    }
  }

  lemma SplicedLength(ev: seq<Event>, p: nat, i: nat, n: nat)
    requires |ev| == NUM_EVENTS && p < NUM_EVENTS && IsEvent(i) && n < NUM_EVENTS
    ensures |Spliced(ev, p, i, n)| == NUM_EVENTS
  {
  }

  lemma SpliceShape(ids: seq<nat>, k: nat, i: nat, r: seq<nat>)
    requires Events(ids) && Distinct(ids) && IsEvent(i) && i !in ids && IsSplice(ids, k, i, r)
    ensures Events(r) && Distinct(r)
  {
    forall p, q | 0 <= p < q < |r| ensures r[p] != r[q] {
      if p == k {
        assert r[q] == ids[q - 1] && ids[q - 1] in ids;
      } else if q == k {
        assert r[p] == ids[p] && ids[p] in ids;
      }
    }
  }

  lemma LinkedFrame(ev: seq<Event>, ev': seq<Event>, ids: seq<nat>)
    requires Linked(ev, ids) && |ev'| == NUM_EVENTS
    requires forall k :: 0 <= k < |ids| ==> ev'[ids[k]].prev == ev[ids[k]].prev && ev'[ids[k]].next == ev[ids[k]].next
    ensures Linked(ev', ids)
  {
  }

  // ---------------------------------------------------------- unlinking

  /** The neighbours of i joined, the sentinel apart (cycInt.c:270-275). */
  function Unlinked(ev: seq<Event>, i: nat): seq<Event>
    requires |ev| == NUM_EVENTS && IsEvent(i) && ev[i].prev < NUM_EVENTS && ev[i].next < NUM_EVENTS
  {
    var p, n := ev[i].prev, ev[i].next;
    var ev1 := if p != 0 then ev[p := ev[p].(next := n)] else ev;
    if n != 0 then ev1[n := ev1[n].(prev := p)] else ev1
  }

  lemma UnlinkedElsewhere(ev: seq<Event>, i: nat, j: nat)
    requires |ev| == NUM_EVENTS && IsEvent(i) && ev[i].prev < NUM_EVENTS && ev[i].next < NUM_EVENTS && j < NUM_EVENTS
    ensures Unlinked(ev, i)[j].time == ev[j].time && Unlinked(ev, i)[j].kind == ev[j].kind
    ensures j != ev[i].prev && j != ev[i].next ==> Unlinked(ev, i)[j] == ev[j]
  {
  }

  lemma UnlinkedAt(ev: seq<Event>, i: nat, j: nat)
    requires |ev| == NUM_EVENTS && IsEvent(i) && ev[i].prev < NUM_EVENTS && ev[i].next < NUM_EVENTS && IsEvent(j)
    requires ev[i].prev == ev[i].next ==> ev[i].prev == 0
    ensures var e := Unlinked(ev, i)[j];
      |Unlinked(ev, i)| == NUM_EVENTS &&
      e.prev == (if j == ev[i].next then ev[i].prev else ev[j].prev) &&
      e.next == (if j == ev[i].prev then ev[i].next else ev[j].next)
  {
  }

  lemma UnlinkEnds(ev: seq<Event>, ids: seq<nat>, k: nat)
    requires Linked(ev, ids) && k < |ids|
    ensures var i := ids[k];
      IsEvent(i) && ev[i].prev == Before(ids, k) < NUM_EVENTS && ev[i].next == From(ids, k + 1) < NUM_EVENTS &&
      (ev[i].prev == ev[i].next ==> ev[i].prev == 0)
  {
    if k > 0 && k + 1 < |ids| {
      DistinctAt(ids, k - 1, k + 1);
    }
  }

  /** r is ids without its entry k. */
  predicate IsCut(ids: seq<nat>, k: nat, r: seq<nat>) {
    k < |ids| && |r| == |ids| - 1 && forall j {:trigger r[j]} :: 0 <= j < |r| ==>
      r[j] == if j < k then ids[j] else ids[j + 1]
  }

  lemma CutEntries(ids: seq<nat>, k: nat, r: seq<nat>, m: nat)
    requires IsCut(ids, k, r) && m < |r|
    ensures r[m] == if m < k then ids[m] else ids[m + 1]
    ensures Before(r, m) == if m <= k then Before(ids, m) else Before(ids, m + 1)
    ensures From(r, m + 1) == if m + 1 < k then From(ids, m + 1) else From(ids, m + 2)
  {
  }

  lemma CutShape(ids: seq<nat>, k: nat, r: seq<nat>)
    requires Events(ids) && Distinct(ids) && IsCut(ids, k, r)
    ensures Events(r) && Distinct(r)
  {
  }

  lemma UnlinkLink(ev: seq<Event>, ids: seq<nat>, k: nat, r: seq<nat>, m: nat)
    requires Linked(ev, ids) && IsCut(ids, k, r) && m < |r|
    requires var i := ids[k]; IsEvent(i) && ev[i].prev < NUM_EVENTS && ev[i].next < NUM_EVENTS
    ensures |Unlinked(ev, ids[k])| == NUM_EVENTS && IsEvent(r[m])
    ensures var e := Unlinked(ev, ids[k])[r[m]]; e.prev == Before(r, m) && e.next == From(r, m + 1)
  {
    LinkedParts(ev, ids);
    UnlinkEnds(ev, ids, k);
    CutEntries(ids, k, r, m);
    hide Unlinked, Linked, Distinct, Events, IsCut;
    var j := if m < k then m else m + 1;
    LinkAt(ev, ids, j);
    DistinctAt(ids, j, k);
    if k > 0 {
      DistinctAt(ids, j, k - 1);
    }
    if k + 1 < |ids| {
      DistinctAt(ids, j, k + 1);
    }
    UnlinkedAt(ev, ids[k], r[m]);
  }

  lemma UnlinkLinks(ev: seq<Event>, ids: seq<nat>, k: nat)
    requires Linked(ev, ids) && k < |ids|
    ensures var i := ids[k];
      IsEvent(i) && ev[i].prev == Before(ids, k) < NUM_EVENTS && ev[i].next == From(ids, k + 1) < NUM_EVENTS
    ensures Linked(Unlinked(ev, ids[k]), ids[..k] + ids[k + 1..])
  {
    var r := ids[..k] + ids[k + 1..];
    CutIs(ids, k, r);
    hide Unlinked, Before, From, IsCut;
    LinkedParts(ev, ids);
    UnlinkEnds(ev, ids, k);
    UnlinkedAt(ev, ids[k], ids[k]);
    CutShape(ids, k, r);
    var ev' := Unlinked(ev, ids[k]);
    forall m | 0 <= m < |r| ensures ev'[r[m]].prev == Before(r, m) && ev'[r[m]].next == From(r, m + 1) {
      UnlinkLink(ev, ids, k, r, m);
    }
  }

  lemma CutIs(ids: seq<nat>, k: nat, r: seq<nat>)
    requires k < |ids| && r == ids[..k] + ids[k + 1..]
    ensures IsCut(ids, k, r)
  {
  }
}

/** src/cycInt.c: the array, the two entry points and the counters, updated in place. */
module Scheduler {
  import opened Numbers
  import opened Agenda
  import opened Dispatch
  import opened DispatchTheorems
  import opened TimeDispatch
  import opened EventLinks

  predicate Represents(ev: seq<Event>, cyc: seq<nat>, tim: seq<nat>) {
    Linked(ev, cyc) && Linked(ev, tim) && Typed(ev, cyc, tim)
  }

  lemma LinkedTouching(ev: seq<Event>, ids: seq<nat>, js: seq<nat>, j: nat)
    requires Linked(ev, ids) && Linked(ev, js) && Disjoint(ids, js) && j < |js|
    ensures IsEvent(js[j]) && forall k :: 0 <= k < |ids| ==> ids[k] != js[j]
  {
    forall k | 0 <= k < |ids| ensures ids[k] != js[j] {
      assert ids[k] !in js && js[j] in js;
    }
  }

  /** Splicing into one list leaves the other one linked. */
  lemma SpliceOther(ev: seq<Event>, ids: seq<nat>, js: seq<nat>, k: nat, i: nat)
    requires Linked(ev, ids) && Linked(ev, js) && Disjoint(ids, js) && k <= |ids| && IsEvent(i) && i !in ids && i !in js
    requires Before(ids, k) < NUM_EVENTS && From(ids, k) < NUM_EVENTS
    ensures Linked(Spliced(ev, Before(ids, k), i, From(ids, k)), js)
  {
    hide Spliced;
    var p, n := Before(ids, k), From(ids, k);
    SplicedLength(ev, p, i, n);
    forall j | 0 <= j < |js|
      ensures Spliced(ev, p, i, n)[js[j]].prev == ev[js[j]].prev && Spliced(ev, p, i, n)[js[j]].next == ev[js[j]].next
    {
      LinkedTouching(ev, ids, js, j);
      assert js[j] in js;
      SplicedElsewhere(ev, p, i, n, js[j]);
    }
    LinkedFrame(ev, Spliced(ev, p, i, n), js);
  }

  /** Unlinking from one list leaves the other one linked. */
  lemma UnlinkOther(ev: seq<Event>, ids: seq<nat>, js: seq<nat>, k: nat)
    requires Linked(ev, ids) && Linked(ev, js) && Disjoint(ids, js) && k < |ids|
    requires IsEvent(ids[k]) && ev[ids[k]].prev < NUM_EVENTS && ev[ids[k]].next < NUM_EVENTS
    ensures |Unlinked(ev, ids[k])| == NUM_EVENTS && Linked(Unlinked(ev, ids[k]), js)
  {
    hide Unlinked;
    var i := ids[k];
    LinkAt(ev, ids, k);
    UnlinkEnds(ev, ids, k);
    UnlinkedAt(ev, i, i);
    forall j | 0 <= j < |js|
      ensures Unlinked(ev, i)[js[j]].prev == ev[js[j]].prev && Unlinked(ev, i)[js[j]].next == ev[js[j]].next
    {
      LinkedTouching(ev, ids, js, j);
      UnlinkedElsewhere(ev, i, js[j]);
    }
    LinkedFrame(ev, Unlinked(ev, i), js);
  }

  lemma SplicedFields(ev: seq<Event>, p: nat, i: nat, n: nat)
    requires |ev| == NUM_EVENTS && p < NUM_EVENTS && IsEvent(i) && n < NUM_EVENTS
    ensures |Spliced(ev, p, i, n)| == NUM_EVENTS && Times(Spliced(ev, p, i, n)) == Times(ev)
    ensures forall j :: 0 <= j < NUM_EVENTS ==> Spliced(ev, p, i, n)[j].kind == ev[j].kind
  {
    hide Spliced;
    SplicedLength(ev, p, i, n);
    forall j | 0 <= j < NUM_EVENTS
      ensures Spliced(ev, p, i, n)[j].time == ev[j].time && Spliced(ev, p, i, n)[j].kind == ev[j].kind
    {
      SplicedElsewhere(ev, p, i, n, j);
    }
  }

  lemma UnlinkedFields(ev: seq<Event>, i: nat)
    requires |ev| == NUM_EVENTS && IsEvent(i) && ev[i].prev < NUM_EVENTS && ev[i].next < NUM_EVENTS
    requires ev[i].prev == ev[i].next ==> ev[i].prev == 0
    ensures |Unlinked(ev, i)| == NUM_EVENTS && Times(Unlinked(ev, i)) == Times(ev)
    ensures forall j :: 0 <= j < NUM_EVENTS ==> Unlinked(ev, i)[j].kind == ev[j].kind
  {
    hide Unlinked;
    UnlinkedAt(ev, i, i);
    forall j | 0 <= j < NUM_EVENTS
      ensures Unlinked(ev, i)[j].time == ev[j].time && Unlinked(ev, i)[j].kind == ev[j].kind
    {
      UnlinkedElsewhere(ev, i, j);
    }
  }

  lemma PlaceIs(ids: seq<nat>, time: seq<nat>, t: nat, k: nat)
    requires Table(time) && Events(ids) && k <= |ids|
    requires forall j :: 0 <= j < k ==> time[ids[j]] < t
    requires k < |ids| ==> time[ids[k]] >= t
    ensures Place(ids, time, t) == k
  {
  }

  /** Setting type and time of an event that is in no list. */
  lemma Marked(ev: seq<Event>, cyc: seq<nat>, tim: seq<nat>, i: nat, kind: Kind, t: nat)
    requires Linked(ev, cyc) && Linked(ev, tim) && IsEvent(i)
    ensures var ev' := ev[i := ev[i].(kind := kind, time := t)];
      Linked(ev', cyc) && Linked(ev', tim) && Times(ev') == Times(ev)[i := t]
  {
    var ev' := ev[i := ev[i].(kind := kind, time := t)];
    LinkedFrame(ev, ev', cyc);
    LinkedFrame(ev, ev', tim);
  }

  lemma DisjointOf(a: Agenda)
    requires Ok(a)
    ensures Disjoint(a.cyc, a.tim) && Disjoint(a.tim, a.cyc) && Table(a.time)
    ensures Events(a.cyc) && Events(a.tim) && Distinct(a.cyc) && Distinct(a.tim)
  {
    forall k, j | 0 <= k < |a.tim| && 0 <= j < |a.cyc| ensures a.cyc[j] != a.tim[k] {
      assert a.cyc[j] !in a.tim && a.tim[k] in a.tim;
    }
  }

  /** i out of the list it is in, and its type cleared. */
  function Removed(ev: seq<Event>, i: nat): seq<Event>
    requires |ev| == NUM_EVENTS && IsEvent(i) && ev[i].prev < NUM_EVENTS && ev[i].next < NUM_EVENTS
    requires |Unlinked(ev, i)| == NUM_EVENTS
  {
    Unlinked(ev, i)[i := Unlinked(ev, i)[i].(kind := NONE)]
  }

  lemma LinkedMark(ev: seq<Event>, ids: seq<nat>, i: nat, kind: Kind)
    requires Linked(ev, ids) && IsEvent(i)
    ensures Linked(ev[i := ev[i].(kind := kind)], ids) && Times(ev[i := ev[i].(kind := kind)]) == Times(ev)
  {
    LinkedFrame(ev, ev[i := ev[i].(kind := kind)], ids);
  }

  lemma FirstAfterCut(ids: seq<nat>, k: nat)
    requires k < |ids| && Events(ids) && Distinct(ids)
    ensures First(ids[..k] + ids[k + 1..]) == if ids[k] == First(ids) then From(ids, k + 1) else First(ids)
  {
    if k > 0 {
      DistinctAt(ids, 0, k);
    }
  }

  /** Unlinking from the list ids; js is the other one. */
  lemma RemovedLinks(ev: seq<Event>, ids: seq<nat>, js: seq<nat>, i: nat)
    requires Linked(ev, ids) && Linked(ev, js) && Disjoint(ids, js) && i in ids
    ensures IsEvent(i) && ev[i].prev < NUM_EVENTS && ev[i].next < NUM_EVENTS && |Unlinked(ev, i)| == NUM_EVENTS
    ensures Linked(Removed(ev, i), Without(ids, i)) && Linked(Removed(ev, i), js)
  {
    LinkedParts(ev, ids);
    hide Linked, Unlinked, Times, Disjoint, Before, From, Index, Distinct, Events;
    var k := Index(ids, i);
    UnlinkLinks(ev, ids, k);
    UnlinkOther(ev, ids, js, k);
    LinkedMark(Unlinked(ev, i), Without(ids, i), i, NONE);
    LinkedMark(Unlinked(ev, i), js, i, NONE);
  }

  lemma RemovedFields(ev: seq<Event>, i: nat)
    requires |ev| == NUM_EVENTS && IsEvent(i) && ev[i].prev < NUM_EVENTS && ev[i].next < NUM_EVENTS
    requires ev[i].prev == ev[i].next ==> ev[i].prev == 0
    ensures |Unlinked(ev, i)| == NUM_EVENTS && Times(Removed(ev, i)) == Times(ev)
    ensures forall j :: 0 <= j < NUM_EVENTS ==> Removed(ev, i)[j].kind == if j == i then NONE else ev[j].kind
  {
    hide Unlinked;
    UnlinkedFields(ev, i);
    var u := Unlinked(ev, i);
    forall j | 0 <= j < NUM_EVENTS ensures u[j].time == ev[j].time {
      assert Times(u)[j] == Times(ev)[j];
    }
  }

  lemma RemovedFirst(ev: seq<Event>, ids: seq<nat>, i: nat)
    requires Linked(ev, ids) && i in ids
    ensures IsEvent(i) && (ev[i].prev == ev[i].next ==> ev[i].prev == 0)
    ensures First(Without(ids, i)) == if i == First(ids) then ev[i].next else First(ids)
  {
    LinkedParts(ev, ids);
    hide Linked, Before, From, Index, Distinct, Events;
    var k := Index(ids, i);
    UnlinkEnds(ev, ids, k);
    FirstAfterCut(ids, k);
  }

  lemma RemovedLists(ev: seq<Event>, ids: seq<nat>, js: seq<nat>, i: nat)
    requires Linked(ev, ids) && Linked(ev, js) && Disjoint(ids, js) && i in ids
    ensures IsEvent(i) && ev[i].prev < NUM_EVENTS && ev[i].next < NUM_EVENTS && |Unlinked(ev, i)| == NUM_EVENTS
    ensures Linked(Removed(ev, i), Without(ids, i)) && Linked(Removed(ev, i), js) && Times(Removed(ev, i)) == Times(ev)
    ensures forall j :: 0 <= j < NUM_EVENTS ==> Removed(ev, i)[j].kind == if j == i then NONE else ev[j].kind
    ensures First(Without(ids, i)) == if i == First(ids) then ev[i].next else First(ids)
  {
    LinkedParts(ev, ids);
    hide Linked, Unlinked, Times, Disjoint, Without, Removed, Distinct, Events;
    RemovedLinks(ev, ids, js, i);
    RemovedFirst(ev, ids, i);
    RemovedFields(ev, i);
  }

  lemma RemovedTyped(ev: seq<Event>, ev': seq<Event>, cyc: seq<nat>,
    tim: seq<nat>, cyc': seq<nat>, tim': seq<nat>, i: nat)
    requires Typed(ev, cyc, tim) && IsEvent(i) && |ev'| == NUM_EVENTS
    requires forall j :: 0 <= j < NUM_EVENTS ==> ev'[j].kind == if j == i then NONE else ev[j].kind
    requires forall j :: j in cyc' <==> j in cyc && j != i
    requires forall j :: j in tim' <==> j in tim && j != i
    ensures Typed(ev', cyc', tim')
  {
  }

  lemma TypedAt(ev: seq<Event>, cyc: seq<nat>, tim: seq<nat>, i: nat)
    requires Typed(ev, cyc, tim) && IsEvent(i)
    ensures ev[i].kind == CYCLES <==> i in cyc
    ensures ev[i].kind == TIME <==> i in tim && i !in cyc
  {
  }

  /** CycInt_RemovePendingEvent on the array is Drop on the agenda. */
  lemma RemovedRepresents(ev: seq<Event>, a: Agenda, i: nat)
    requires Represents(ev, a.cyc, a.tim) && Ok(a) && IsEvent(i) && (i in a.cyc || i in a.tim)
    ensures ev[i].prev < NUM_EVENTS && ev[i].next < NUM_EVENTS && |Unlinked(ev, i)| == NUM_EVENTS
    ensures var d := Drop(a, i);
      Represents(Removed(ev, i), d.cyc, d.tim) && Times(Removed(ev, i)) == Times(ev) &&
      First(d.cyc) == (if i in a.cyc && i == First(a.cyc) then ev[i].next else First(a.cyc)) &&
      First(d.tim) == (if i in a.tim && i == First(a.tim) then ev[i].next else First(a.tim))
  {
    DisjointOf(a);
    WithoutIs(a.cyc, i);
    WithoutIs(a.tim, i);
    hide Linked, Unlinked, Times, Disjoint, Typed, Without, Removed, First, Ok, Events, Distinct, Table;
    if i in a.cyc {
      InOne(a, i);
      RemovedLists(ev, a.cyc, a.tim, i);
      WithoutAbsent(a.tim, i);
    } else {
      RemovedLists(ev, a.tim, a.cyc, i);
      WithoutAbsent(a.cyc, i);
    }
    RemovedLength(ev, i);
    RemovedTyped(ev, Removed(ev, i), a.cyc, a.tim, Without(a.cyc, i), Without(a.tim, i), i);
  }

  lemma RemovedLength(ev: seq<Event>, i: nat)
    requires |ev| == NUM_EVENTS && IsEvent(i) && ev[i].prev < NUM_EVENTS && ev[i].next < NUM_EVENTS
    requires |Unlinked(ev, i)| == NUM_EVENTS
    ensures |Removed(ev, i)| == NUM_EVENTS
  {
  }

  lemma WithoutAbsent(ids: seq<nat>, i: nat)
    requires i !in ids
    ensures Without(ids, i) == ids
  {
  }

  lemma InOne(a: Agenda, i: nat)
    requires Ok(a) && i in a.cyc
    ensures i !in a.tim
  {
    var k :| 0 <= k < |a.cyc| && a.cyc[k] == i;
  }

  // ---------------------------------------------------------- queueing

  lemma FirstAfterSplice(ids: seq<nat>, k: nat, i: nat)
    requires k <= |ids| && Events(ids) && Distinct(ids)
    ensures First(ids[..k] + [i] + ids[k..]) == if From(ids, k) == First(ids) then i else First(ids)
  {
    if 0 < k < |ids| {
      DistinctAt(ids, 0, k);
    }
  }

  /** Splicing an event of no list into ids at its place. */
  lemma SplicedLists(ev: seq<Event>, ids: seq<nat>, js: seq<nat>, k: nat, i: nat)
    requires Linked(ev, ids) && Linked(ev, js) && Disjoint(ids, js) && k <= |ids| && IsEvent(i) && i !in ids && i !in js
    ensures var p, n, r := Before(ids, k), From(ids, k), ids[..k] + [i] + ids[k..];
      p < NUM_EVENTS && n < NUM_EVENTS && Linked(Spliced(ev, p, i, n), r) && Linked(Spliced(ev, p, i, n), js) &&
      Times(Spliced(ev, p, i, n)) == Times(ev) && |Spliced(ev, p, i, n)| == NUM_EVENTS &&
      First(r) == if n == First(ids) then i else First(ids)
    ensures forall j :: 0 <= j < NUM_EVENTS ==> Spliced(ev, Before(ids, k), i, From(ids, k))[j].kind == ev[j].kind
  {
    LinkedParts(ev, ids);
    hide Linked, Spliced, Times, Disjoint, Before, From, Distinct, Events, First;
    SpliceLinks(ev, ids, k, i);
    SpliceOther(ev, ids, js, k, i);
    SplicedFields(ev, Before(ids, k), i, From(ids, k));
    FirstAfterSplice(ids, k, i);
  }

  /** An event of no list, marked with its new list and deadline, then spliced in: ToCycles or ToTime. */
  lemma QueuedRepresents(ev: seq<Event>, a: Agenda, i: nat, t: nat, cycles: bool)
    requires Represents(ev, a.cyc, a.tim) && Ok(a) && Times(ev) == a.time && t < U64
    requires IsEvent(i) && i !in a.cyc && i !in a.tim
    ensures var ids := if cycles then a.cyc else a.tim;
      var m := Marks(ev, i, t, cycles);
      |m| == NUM_EVENTS && Times(m) == a.time[i := t] && Table(a.time[i := t]) && Events(ids) &&
      var k := Place(ids, a.time[i := t], t);
      var p, n := Before(ids, k), From(ids, k);
      p < NUM_EVENTS && n < NUM_EVENTS &&
      var b := if cycles then ToCycles(a, i, t) else ToTime(a, i, t);
      var ev' := Spliced(m, p, i, n);
      Represents(ev', b.cyc, b.tim) && Times(ev') == b.time &&
      First(b.cyc) == (if cycles && n == First(ids) then i else First(a.cyc)) &&
      First(b.tim) == (if !cycles && n == First(ids) then i else First(a.tim))
  {
    DisjointOf(a);
    DropOk(a, i, t);
    WithoutAbsent(a.cyc, i);
    WithoutAbsent(a.tim, i);
    Marked(ev, a.cyc, a.tim, i, if cycles then CYCLES else TIME, t);
    QueuedTyped(ev, a.cyc, a.tim, i, t, cycles);
    var time := a.time[i := t];
    TableRetimed(a.time, i, t);
    hide Linked, Spliced, Times, Disjoint, Typed, Without, First, Ok, Events, Distinct, Table, Before, From, Place;
    var m := Marks(ev, i, t, cycles);
    var ids, js := if cycles then a.cyc else a.tim, if cycles then a.tim else a.cyc;
    var k := Place(ids, time, t);
    SplicedLists(m, ids, js, k, i);
    InsertMembers(ids, time, i);
    var ev' := Spliced(m, Before(ids, k), i, From(ids, k));
    SameTypes(m, ev', if cycles then [i] + a.cyc else a.cyc, if cycles then a.tim else [i] + a.tim,
              if cycles then Insert(ids, time, i) else a.cyc, if cycles then a.tim else Insert(ids, time, i));
  }

  function Marks(ev: seq<Event>, i: nat, t: nat, cycles: bool): seq<Event>
    requires |ev| == NUM_EVENTS && IsEvent(i)
  {
    ev[i := ev[i].(kind := if cycles then CYCLES else TIME, time := t)]
  }

  lemma QueuedTyped(ev: seq<Event>, cyc: seq<nat>, tim: seq<nat>, i: nat, t: nat, cycles: bool)
    requires Typed(ev, cyc, tim) && IsEvent(i) && i !in cyc && i !in tim
    ensures Typed(Marks(ev, i, t, cycles), if cycles then [i] + cyc else cyc, if cycles then tim else [i] + tim)
  {
  }

  lemma SameTypes(ev: seq<Event>, ev': seq<Event>, cyc: seq<nat>, tim: seq<nat>, cyc': seq<nat>, tim': seq<nat>)
    requires Typed(ev, cyc, tim) && |ev'| == NUM_EVENTS
    requires forall j :: 0 <= j < NUM_EVENTS ==> ev'[j].kind == ev[j].kind
    requires forall j :: j in cyc' <==> j in cyc
    requires forall j :: j in tim' <==> j in tim
    ensures Typed(ev', cyc', tim')
  {
  }

  /** The first k events of ids come before event i. */
  predicate Earlier(ids: seq<nat>, time: seq<nat>, i: nat, k: nat) {
    |time| == NUM_EVENTS && IsEvent(i) && Events(ids) && k <= |ids| &&
    forall j :: 0 <= j < k ==> time[ids[j]] < time[i]
  }

  lemma NoneEarlier(ids: seq<nat>, time: seq<nat>, i: nat)
    requires |time| == NUM_EVENTS && IsEvent(i) && Events(ids)
    ensures Earlier(ids, time, i, 0)
  {
  }

  lemma FirstFrom(ids: seq<nat>)
    ensures First(ids) == From(ids, 0) && Before(ids, 0) == 0
  {
  }

  lemma WalkStep(ev: seq<Event>, ids: seq<nat>, time: seq<nat>, i: nat, k: nat)
    requires Linked(ev, ids) && Table(time) && time == Times(ev) && IsEvent(i) && Earlier(ids, time, i, k)
    requires From(ids, k) < NUM_EVENTS && ev[From(ids, k)].time < ev[i].time
    ensures k < |ids| && Earlier(ids, time, i, k + 1)
    ensures ev[From(ids, k)].next == From(ids, k + 1) < NUM_EVENTS && From(ids, k) == Before(ids, k + 1)
  {
    hide Linked, Earlier, Table;
    LinkedParts(ev, ids);
    assert time[From(ids, k)] == ev[From(ids, k)].time && time[i] == ev[i].time;
    EarlierOne(ids, time, i, k);
    LinkAt(ev, ids, k);
  }

  lemma EarlierOne(ids: seq<nat>, time: seq<nat>, i: nat, k: nat)
    requires Table(time) && Earlier(ids, time, i, k) && From(ids, k) < NUM_EVENTS && time[From(ids, k)] < time[i]
    ensures k < |ids| && IsEvent(i) && |time| == NUM_EVENTS && Earlier(ids, time, i, k + 1)
  {
  }

  lemma WalkEnd(ev: seq<Event>, ids: seq<nat>, time: seq<nat>, i: nat, k: nat)
    requires Linked(ev, ids) && Table(time) && time == Times(ev) && Earlier(ids, time, i, k)
    requires From(ids, k) < NUM_EVENTS && ev[From(ids, k)].time >= ev[i].time
    ensures Events(ids) && Place(ids, time, time[i]) == k
  {
    hide Distinct, Place;
    assert time[From(ids, k)] == ev[From(ids, k)].time && time[i] == ev[i].time;
    PlaceIs(ids, time, time[i], k);
  }

  // ---------------------------------------------------------- taking the head off

  /** The head i of a list taken off, its type cleared (cycInt.c:119-121). */
  function Popped(ev: seq<Event>, i: nat): seq<Event>
    requires |ev| == NUM_EVENTS && IsEvent(i) && ev[i].next < NUM_EVENTS
  {
    var ev1 := ev[i := ev[i].(kind := NONE)];
    ev1[ev[i].next := ev1[ev[i].next].(prev := 0)]
  }

  lemma PoppedAt(ev: seq<Event>, i: nat, j: nat)
    requires |ev| == NUM_EVENTS && IsEvent(i) && ev[i].next < NUM_EVENTS && j < NUM_EVENTS
    ensures |Popped(ev, i)| == NUM_EVENTS
    ensures var e := Popped(ev, i)[j];
      e.next == ev[j].next && e.time == ev[j].time && e.prev == (if j == ev[i].next then 0 else ev[j].prev) &&
      e.kind == (if j == i then NONE else ev[j].kind)
  {
  }

  lemma PoppedLink(ev: seq<Event>, ids: seq<nat>, m: nat)
    requires Linked(ev, ids) && m + 1 < |ids|
    ensures IsEvent(ids[0]) && IsEvent(ids[m + 1]) && ev[ids[0]].next < NUM_EVENTS && |Popped(ev, ids[0])| == NUM_EVENTS
    ensures var e := Popped(ev, ids[0])[ids[1..][m]];
      e.prev == Before(ids[1..], m) && e.next == From(ids[1..], m + 1)
  {
    LinkedParts(ev, ids);
    LinkAt(ev, ids, 0);
    LinkAt(ev, ids, m + 1);
    DistinctAt(ids, 1, m + 1);
    hide Linked, Distinct, Events, Popped;
    PoppedAt(ev, ids[0], ids[m + 1]);
  }

  lemma PoppedLinks(ev: seq<Event>, ids: seq<nat>)
    requires Linked(ev, ids) && ids != []
    ensures IsEvent(ids[0]) && ev[ids[0]].next == First(ids[1..]) < NUM_EVENTS
    ensures Linked(Popped(ev, ids[0]), ids[1..])
  {
    LinkedParts(ev, ids);
    LinkAt(ev, ids, 0);
    var r := ids[1..];
    assert Events(r) && Distinct(r) by { CutIs(ids, 0, r); CutShape(ids, 0, r); }
    hide Popped;
    PoppedAt(ev, ids[0], ids[0]);
    forall m | 0 <= m < |r|
      ensures Popped(ev, ids[0])[r[m]].prev == Before(r, m) && Popped(ev, ids[0])[r[m]].next == From(r, m + 1)
    {
      PoppedLink(ev, ids, m);
    }
  }

  lemma PoppedOther(ev: seq<Event>, ids: seq<nat>, js: seq<nat>)
    requires Linked(ev, ids) && Linked(ev, js) && Disjoint(js, ids) && ids != []
    ensures IsEvent(ids[0]) && ev[ids[0]].next < NUM_EVENTS && Linked(Popped(ev, ids[0]), js)
  {
    LinkAt(ev, ids, 0);
    var i := ids[0];
    hide Popped, Distinct;
    PoppedAt(ev, i, i);
    forall k | 0 <= k < |js|
      ensures Popped(ev, i)[js[k]].prev == ev[js[k]].prev && Popped(ev, i)[js[k]].next == ev[js[k]].next
    {
      assert IsEvent(js[k]);
      if |ids| > 1 {
        LinkedTouching(ev, js, ids, 1);
      }
      PoppedAt(ev, i, js[k]);
    }
    LinkedFrame(ev, Popped(ev, i), js);
  }

  lemma PoppedFields(ev: seq<Event>, i: nat)
    requires |ev| == NUM_EVENTS && IsEvent(i) && ev[i].next < NUM_EVENTS
    ensures |Popped(ev, i)| == NUM_EVENTS && Times(Popped(ev, i)) == Times(ev)
    ensures forall j :: 0 <= j < NUM_EVENTS ==> Popped(ev, i)[j].kind == if j == i then NONE else ev[j].kind
  {
  }

  lemma TailMembers(ids: seq<nat>)
    requires ids != [] && Events(ids) && Distinct(ids)
    ensures forall j :: j in ids[1..] <==> j in ids && j != ids[0]
  {
    forall j | j in ids && j != ids[0] ensures j in ids[1..] {
      var k :| 0 <= k < |ids| && ids[k] == j;
      assert ids[1..][k - 1] == j;
    }
    forall j | j in ids[1..] ensures j in ids && j != ids[0] {
      var k :| 0 <= k < |ids[1..]| && ids[1..][k] == j;
      assert ids[k + 1] == j;
    }
  }

  lemma PoppedRepresents(ev: seq<Event>, a: Agenda, cycles: bool)
    requires Represents(ev, a.cyc, a.tim) && Ok(a)
    requires (if cycles then a.cyc else a.tim) != []
    ensures var ids := if cycles then a.cyc else a.tim;
      IsEvent(ids[0]) && ev[ids[0]].next == First(ids[1..]) < NUM_EVENTS &&
      Times(Popped(ev, ids[0])) == Times(ev) &&
      (if cycles then Represents(Popped(ev, ids[0]), a.cyc[1..], a.tim)
       else Represents(Popped(ev, ids[0]), a.cyc, a.tim[1..]))
  {
    DisjointOf(a);
    hide Linked, Popped, Times, Disjoint, Typed, First, Ok, Events, Distinct, Table;
    var ids, js := if cycles then a.cyc else a.tim, if cycles then a.tim else a.cyc;
    LinkedParts(ev, ids);
    PoppedLinks(ev, ids);
    PoppedOther(ev, ids, js);
    PoppedFields(ev, ids[0]);
    TailMembers(ids);
    HeadInOne(a, cycles);
    RemovedTyped(ev, Popped(ev, ids[0]), a.cyc, a.tim, if cycles then a.cyc[1..] else a.cyc,
                 if cycles then a.tim else a.tim[1..], ids[0]);
  }

  lemma HeadInOne(a: Agenda, cycles: bool)
    requires Ok(a) && (if cycles then a.cyc else a.tim) != []
    ensures if cycles then a.cyc[0] !in a.tim else a.tim[0] !in a.cyc
  {
    if !cycles {
      DisjointOf(a);
    }
  }

  // ---------------------------------------------------------- the loops of CycInt_AddCycles

  lemma LeadsHead(a: Agenda, cfg: Config, h: Script, n: nat, trace: seq<Served>, m: Agenda)
    requires Ok(a) && Ok(m) && Leads(a, cfg, h, n, trace, m)
    ensures trace == [] ==> a == m
    ensures trace != [] ==>
      Due(a) && a.cyc[0] < |a.time| && trace[0] == Served(a.cyc[0], a.time[a.cyc[0]]) &&
      Wellformed(h(a.cyc[0], n)) && Leads(Serve(a, cfg, h(a.cyc[0], n)), cfg, h, n + 1, trace[1..], m)
  {
    OkEvents(a);
    hide Ok, Serve, Wellformed;
  }

  lemma {:induction false} LeadsAppend(a: Agenda, cfg: Config, h: Script, n: nat, trace: seq<Served>, m: Agenda,
                                       more: seq<Served>, b: Agenda)
    requires Ok(a) && Ok(m) && Ok(b)
    requires Leads(a, cfg, h, n, trace, m) && Leads(m, cfg, h, n + |trace|, more, b)
    ensures Leads(a, cfg, h, n, trace + more, b)
    decreases |trace|
  {
    hide Ok, Serve, Wellformed, Leads;
    LeadsHead(a, cfg, h, n, trace, m);
    if trace == [] {
      assert trace + more == more;
    } else {
      LeadsAppend(Serve(a, cfg, h(a.cyc[0], n)), cfg, h, n + 1, trace[1..], m, more, b);
      LeadsCons(a, cfg, h, n, trace[1..] + more, b);
      assert trace + more == [trace[0]] + (trace[1..] + more);
    }
  }

  lemma LeadsStep(a: Agenda, cfg: Config, h: Script, n: nat, trace: seq<Served>, m: Agenda)
    requires Ok(a) && Ok(m) && Leads(a, cfg, h, n, trace, m)
    requires Due(m) && Wellformed(h(m.cyc[0], n + |trace|))
    ensures m.cyc[0] < |m.time|
    ensures var s := Served(m.cyc[0], m.time[m.cyc[0]]);
      Leads(a, cfg, h, n, trace + [s], Serve(m, cfg, h(m.cyc[0], n + |trace|)))
  {
    hide Ok, Serve, Wellformed, Leads;
    OkEvents(m);
    var m' := Serve(m, cfg, h(m.cyc[0], n + |trace|));
    LeadsNowhere(m', cfg, h, n + |trace| + 1);
    LeadsCons(m, cfg, h, n + |trace|, [], m');
    var s := Served(m.cyc[0], m.time[m.cyc[0]]);
    assert [s] + [] == [s];
    LeadsAppend(a, cfg, h, n, trace, m, [s], m');
  }

  lemma LeadsNowhere(a: Agenda, cfg: Config, h: Script, n: nat)
    requires Ok(a)
    ensures Leads(a, cfg, h, n, [], a)
  {
  }

  lemma {:induction false} LeadsEnd(a: Agenda, cfg: Config, h: Script, n: nat, trace: seq<Served>, m: Agenda)
    requires Ok(a) && Ok(m) && Leads(a, cfg, h, n, trace, m) && !Due(m)
    ensures Runs(a, cfg, h, n, trace, m)
    decreases |trace|
  {
    hide Ok, Serve, Wellformed;
    if trace != [] {
      LeadsEnd(Serve(a, cfg, h(a.cyc[0], n)), cfg, h, n + 1, trace[1..], m);
    }
  }

  lemma LeadsTimeHead(a: Agenda, cfg: Config, h: Script, n: nat, trace: seq<Served>, m: Agenda)
    requires Ok(a) && Ok(m) && LeadsTime(a, cfg, h, n, trace, m)
    ensures trace == [] ==> a == m
    ensures trace != [] ==>
      TimeDue(a) && a.tim[0] < |a.time| && trace[0] == Served(a.tim[0], a.time[a.tim[0]]) &&
      Wellformed(h(a.tim[0], n)) && LeadsTime(ServeTime(a, cfg, h(a.tim[0], n)), cfg, h, n + 1, trace[1..], m)
  {
    OkEvents(a);
    hide Ok, ServeTime, Wellformed;
  }

  lemma {:induction false} LeadsTimeAppend(a: Agenda, cfg: Config, h: Script, n: nat, trace: seq<Served>, m: Agenda,
                                       more: seq<Served>, b: Agenda)
    requires Ok(a) && Ok(m) && Ok(b)
    requires LeadsTime(a, cfg, h, n, trace, m) && LeadsTime(m, cfg, h, n + |trace|, more, b)
    ensures LeadsTime(a, cfg, h, n, trace + more, b)
    decreases |trace|
  {
    hide Ok, ServeTime, Wellformed, Ahead, LeadsTime;
    LeadsTimeHead(a, cfg, h, n, trace, m);
    if trace == [] {
      assert trace + more == more;
    } else {
      LeadsTimeAppend(ServeTime(a, cfg, h(a.tim[0], n)), cfg, h, n + 1, trace[1..], m, more, b);
      LeadsTimeCons(a, cfg, h, n, trace[1..] + more, b);
      assert trace + more == [trace[0]] + (trace[1..] + more);
    }
  }

  lemma LeadsTimeStep(a: Agenda, cfg: Config, h: Script, n: nat, trace: seq<Served>, m: Agenda)
    requires Ok(a) && Ok(m) && LeadsTime(a, cfg, h, n, trace, m)
    requires TimeDue(m) && Wellformed(h(m.tim[0], n + |trace|))
    ensures m.tim[0] < |m.time|
    ensures var s := Served(m.tim[0], m.time[m.tim[0]]);
      LeadsTime(a, cfg, h, n, trace + [s], ServeTime(m, cfg, h(m.tim[0], n + |trace|)))
  {
    hide Ok, ServeTime, Wellformed, LeadsTime;
    OkEvents(m);
    var m' := ServeTime(m, cfg, h(m.tim[0], n + |trace|));
    LeadsNowhereTime(m', cfg, h, n + |trace| + 1);
    LeadsTimeCons(m, cfg, h, n + |trace|, [], m');
    var s := Served(m.tim[0], m.time[m.tim[0]]);
    assert [s] + [] == [s];
    LeadsTimeAppend(a, cfg, h, n, trace, m, [s], m');
  }

  lemma LeadsNowhereTime(a: Agenda, cfg: Config, h: Script, n: nat)
    requires Ok(a)
    ensures LeadsTime(a, cfg, h, n, [], a)
  {
  }

  lemma {:induction false} LeadsTimeEnd(a: Agenda, cfg: Config, h: Script, n: nat, trace: seq<Served>, m: Agenda)
    requires Ok(a) && Ok(m) && LeadsTime(a, cfg, h, n, trace, m) && !TimeDue(m)
    ensures RunsTime(a, cfg, h, n, trace, NextCheck(m, cfg))
    decreases |trace|
  {
    hide Ok, ServeTime, Wellformed;
    if trace != [] {
      LeadsTimeEnd(ServeTime(a, cfg, h(a.tim[0], n)), cfg, h, n + 1, trace[1..], m);
    }
  }

  class CycInt {
    const ev: array<Event>
    const cfg: Config
    var nCyclesMainCounter: nat
    var nCheckCycles: nat
    var nTimeNow: nat
    var nCyclesFirst: nat
    var nTimeFirst: nat
    ghost var cyc: seq<nat>
    ghost var tim: seq<nat>

    /** The agenda this object represents. */
    ghost function Model(): Agenda
      reads this, ev
    {
      Agenda(nCyclesMainCounter, nCheckCycles, nTimeNow, Times(ev[..]), cyc, tim)
    }

    ghost predicate Valid()
      reads this, ev
    {
      ev.Length == NUM_EVENTS && Ok(Model()) && Represents(ev[..], cyc, tim) &&
      nCyclesFirst == First(cyc) && nTimeFirst == First(tim)
    }

    constructor (config: Config)
      ensures Valid() && fresh(ev) && cfg == config
      ensures Model() == Agenda(0, if config.realtime then 0 else NEVER, 0, seq(NUM_EVENTS, _ => NEVER), [], [])
    {
      cfg := config;
      nCyclesMainCounter := 0;
      nCheckCycles := if config.realtime then 0 else NEVER;
      nTimeNow := 0;
      nCyclesFirst := 0;
      nTimeFirst := 0;
      ev := new Event[NUM_EVENTS](_ => Event(NONE, NEVER, 0, 0));
      cyc, tim := [], [];
      new;
      assert Times(ev[..]) == seq(NUM_EVENTS, _ => NEVER);
    }

    method RemovePendingEvent(i: nat)
      requires Valid() && IsEvent(i)
      modifies this, ev
      ensures Valid() && Model() == Drop(old(Model()), i)
    {
      hide Linked, Unlinked, Ok, Typed, Times, Without;
      ghost var a := Model();
      TypedAt(ev[..], cyc, tim, i);
      DropOk(a, i, 0);
      if ev[i].kind == NONE {
        WithoutAbsent(cyc, i);
        WithoutAbsent(tim, i);
        return;
      }
      RemovedRepresents(ev[..], a, i);
      if ev[i].kind == CYCLES {
        InOne(a, i);
        if i == nCyclesFirst {
          nCyclesFirst := ev[i].next;
        }
      } else {
        if i == nTimeFirst {
          nTimeFirst := ev[i].next;
        }
      }
      cyc, tim := Without(cyc, i), Without(tim, i);
      Unlink(i);
    }

    /** cycInt.c:270-276 */
    method Unlink(i: nat)
      requires ev.Length == NUM_EVENTS && IsEvent(i) && ev[i].prev < NUM_EVENTS && ev[i].next < NUM_EVENTS
      requires |Unlinked(ev[..], i)| == NUM_EVENTS
      modifies ev
      ensures ev[..] == Removed(old(ev[..]), i)
    {
      if ev[i].prev != 0 {
        ev[ev[i].prev] := ev[ev[i].prev].(next := ev[i].next);
      }
      if ev[i].next != 0 {
        ev[ev[i].next] := ev[ev[i].next].(prev := ev[i].prev);
      }
      ev[i] := ev[i].(kind := NONE);
    }

    /** CycInt_AddEvent: walk to the first event that is not earlier, and splice i in before it. */
    method AddEvent(first: nat, i: nat, ghost ids: seq<nat>) returns (newFirst: nat)
      requires ev.Length == NUM_EVENTS && IsEvent(i) && first == First(ids) && Linked(ev[..], ids)
      requires Table(Times(ev[..]))
      modifies ev
      ensures Events(ids)
      ensures var time := old(Times(ev[..]));
        var k := Place(ids, time, time[i]);
        var p, n := Before(ids, k), From(ids, k);
        p < NUM_EVENTS && n < NUM_EVENTS && ev[..] == Spliced(old(ev[..]), p, i, n) &&
        newFirst == if n == First(ids) then i else First(ids)
    {
      ghost var evs, time, k := ev[..], Times(ev[..]), 0;
      LinkedParts(evs, ids);
      NextInRange(ids, 0);
      hide Linked, Spliced, Place, Table, Times, Earlier, Before, From, First, Distinct, Events;
      NoneEarlier(ids, time, i);
      newFirst := first;
      var next, prev := first, 0;
      assert next == From(ids, 0) && prev == Before(ids, 0) by { FirstFrom(ids); }
      while ev[next].time < ev[i].time
        invariant k <= |ids| && next == From(ids, k) < NUM_EVENTS && prev == Before(ids, k) < NUM_EVENTS
        invariant Earlier(ids, time, i, k)
        invariant ev[..] == evs
        decreases |ids| - k
      {
        WalkStep(evs, ids, time, i, k);
        assert evs[next] == ev[next] && evs[i] == ev[i];
        prev := next;
        next := ev[next].next;
        k := k + 1;
      }
      assert evs[next] == ev[next] && evs[i] == ev[i];
      WalkEnd(evs, ids, time, i, k);
      if next == first {
        newFirst := i;
      }
      Splice(prev, i, next);
    }

    method Splice(prev: nat, i: nat, next: nat)
      requires ev.Length == NUM_EVENTS && prev < NUM_EVENTS && IsEvent(i) && next < NUM_EVENTS
      modifies ev
      ensures ev[..] == Spliced(old(ev[..]), prev, i, next)
    {
      ev[i] := ev[i].(prev := prev, next := next);
      if prev != 0 {
        ev[prev] := ev[prev].(next := i);
      }
      if next != 0 {
        ev[next] := ev[next].(prev := i);
      }
    }

    /** type, time and the list entry of an event that is not queued (cycInt.c:182-184 and alike). */
    method PutCycles(i: nat, t: nat)
      requires Valid() && IsEvent(i) && i !in cyc && i !in tim && t < U64
      modifies this, ev
      ensures Valid() && Model() == ToCycles(old(Model()), i, t)
    {
      hide Linked, Spliced, Ok, Typed, Times, Without, Place, Before, From;
      ghost var a := Model();
      QueuedRepresents(ev[..], a, i, t, true);
      ToCyclesOk(a, i, t);
      LinkedAfterMark(ev[..], a, i, t, true);
      ghost var evs := ev[..];
      ev[i] := ev[i].(kind := CYCLES, time := t);
      assert ev[..] == Marks(evs, i, t, true);
      nCyclesFirst := AddEvent(nCyclesFirst, i, cyc);
      cyc, tim := ToCycles(a, i, t).cyc, ToCycles(a, i, t).tim;
    }

    method PutTime(i: nat, t: nat)
      requires Valid() && IsEvent(i) && i !in cyc && i !in tim && t < U64
      modifies this, ev
      ensures Valid() && Model() == ToTime(old(Model()), i, t)
      ensures nCyclesMainCounter == old(nCyclesMainCounter)
    {
      hide Linked, Spliced, Ok, Typed, Times, Without, Place, Before, From;
      ghost var a := Model();
      QueuedRepresents(ev[..], a, i, t, false);
      ToTimeOk(a, i, t);
      LinkedAfterMark(ev[..], a, i, t, false);
      ghost var evs := ev[..];
      ev[i] := ev[i].(kind := TIME, time := t);
      assert ev[..] == Marks(evs, i, t, false);
      nTimeFirst := AddEvent(nTimeFirst, i, tim);
      cyc, tim := ToTime(a, i, t).cyc, ToTime(a, i, t).tim;
    }

    method AddCyclesEvent(cycles: nat, i: nat)
      requires Valid() && IsEvent(i)
      modifies this, ev
      ensures Valid() && Model() == Apply(old(Model()), cfg, AddCycles(i, cycles))
    {
      hide Valid, ToCycles;
      Clear(i);
      PutCycles(i, (nCyclesMainCounter + cycles) % U64);
    }

    method UpdateCyclesEvent(cycles: nat, i: nat)
      requires Valid() && IsEvent(i)
      modifies this, ev
      ensures Valid() && Model() == Apply(old(Model()), cfg, UpdateCycles(i, cycles))
    {
      hide Valid, ToCycles;
      Clear(i);
      PutCycles(i, (ev[i].time + cycles) % U64);
    }

    method AddTimeEvent(slow: nat, fast: nat, i: nat, clock: nat)
      requires Valid() && IsEvent(i)
      modifies this, ev
      ensures Valid() && Model() == Apply(old(Model()), cfg, AddTime(i, slow, fast, clock))
    {
      hide Represents, Ok, ToCycles, ToTime;
      Clear(i);
      if cfg.realtime {
        var delay := if fast != 0 then fast else slow;
        PutTime(i, (clock + delay) % U64);
        if delay < CHECK_INTERVAL && i == nTimeFirst {
          CheckMoved(Model(), (nCyclesMainCounter + delay * cfg.freq) % U64);
          nCheckCycles := (nCyclesMainCounter + delay * cfg.freq) % U64;
        }
      } else {
        PutCycles(i, (nCyclesMainCounter + slow * cfg.freq) % U64);
      }
    }

    method UpdateTimeEvent(slow: nat, fast: nat, i: nat, clock: nat)
      requires Valid() && IsEvent(i)
      modifies this, ev
      ensures Valid() && Model() == Apply(old(Model()), cfg, UpdateTime(i, slow, fast, clock))
    {
      hide Represents, Ok, ToCycles, ToTime;
      Clear(i);
      if cfg.realtime {
        var delay := if fast != 0 then fast else slow;
        var time := Rebase(ev[i].time, clock % U64, delay);
        PutTime(i, (time + delay) % U64);
        ClockMoved(Model(), clock % U64);
        nTimeNow := clock % U64;
      } else {
        PutCycles(i, (ev[i].time + slow * cfg.freq) % U64);
      }
    }

    method AddCycleTimeEvent(cycleTime: nat, fast: nat, i: nat)
      requires Valid() && IsEvent(i)
      modifies this, ev
      ensures Valid() && Model() == Apply(old(Model()), cfg, AddCycleTime(i, cycleTime, fast))
    {
      hide Valid, Apply;
      OkOf();
      CycleTimeIs(Model(), cfg, i, cycleTime, fast);
      var t := if cfg.realtime && fast != 0 then fast else cycleTime;
      AddCyclesEvent(t * cfg.freq, i);
    }

    method UpdateCycleTimeEvent(cycleTime: nat, fast: nat, i: nat)
      requires Valid() && IsEvent(i)
      modifies this, ev
      ensures Valid() && Model() == Apply(old(Model()), cfg, UpdateCycleTime(i, cycleTime, fast))
    {
      hide Valid, Apply;
      OkOf();
      CycleTimeIs(Model(), cfg, i, cycleTime, fast);
      var t := if cfg.realtime && fast != 0 then fast else cycleTime;
      UpdateCyclesEvent(t * cfg.freq, i);
    }

    /** cycInt.c:118-121 */
    method PopCycles()
      requires Valid() && cyc != []
      modifies this, ev
      ensures Valid() && Model() == Pop(old(Model()))
    {
      hide Linked, Popped, Ok, Typed, Times, Events;
      ghost var a := Model();
      PopOk(a);
      PoppedRepresents(ev[..], a, true);
      var i := nCyclesFirst;
      ghost var evs := ev[..];
      ev[i] := ev[i].(kind := NONE);
      nCyclesFirst := ev[i].next;
      ev[nCyclesFirst] := ev[nCyclesFirst].(prev := 0);
      assert ev[..] == Popped(evs, i) by { PoppedIs(evs, ev[..], i); }
      cyc := cyc[1..];
    }

    /** cycInt.c:135-138 */
    method PopTimes()
      requires Valid() && tim != []
      modifies this, ev
      ensures Valid() && Model() == PopTime(old(Model()))
    {
      hide Linked, Popped, Ok, Typed, Times, Events;
      ghost var a := Model();
      PopTimeOk(a);
      PoppedRepresents(ev[..], a, false);
      var i := nTimeFirst;
      ghost var evs := ev[..];
      ev[i] := ev[i].(kind := NONE);
      nTimeFirst := ev[i].next;
      ev[nTimeFirst] := ev[nTimeFirst].(prev := 0);
      assert ev[..] == Popped(evs, i) by { PoppedIs(evs, ev[..], i); }
      tim := tim[1..];
    }

    method Perform(op: Op)
      requires Valid() && IsEvent(op.i)
      modifies this, ev
      ensures Valid() && Model() == Apply(old(Model()), cfg, op)
    {
      hide Valid, Apply;
      match op
      case AddCycles(i, c) => AddCyclesEvent(c, i);
      case UpdateCycles(i, c) => UpdateCyclesEvent(c, i);
      case AddTime(i, slow, fast, clock) => AddTimeEvent(slow, fast, i, clock);
      case UpdateTime(i, slow, fast, clock) => UpdateTimeEvent(slow, fast, i, clock);
      case AddCycleTime(i, ct, fast) => AddCycleTimeEvent(ct, fast, i);
      case UpdateCycleTime(i, ct, fast) => UpdateCycleTimeEvent(ct, fast, i);
      case Remove(i) =>
        OkOf();
        RemoveIs(Model(), cfg, i);
        RemovePendingEvent(i);
    }

    method PerformAll(ops: seq<Op>)
      requires Valid() && Wellformed(ops)
      modifies this, ev
      ensures Valid() && Ok(old(Model())) && Model() == ApplyAll(old(Model()), cfg, ops)
    {
      hide Valid, Apply, Ok;
      OkOf();
      ghost var a := Model();
      for k := 0 to |ops|
        invariant Valid() && Ok(Model()) && Wellformed(ops[k..])
        invariant ApplyAll(Model(), cfg, ops[k..]) == ApplyAll(a, cfg, ops)
      {
        assert ops[k..][0] == ops[k] && ops[k..][1..] == ops[k + 1..];
        Perform(ops[k]);
        OkOf();
      }
    }

    /** One turn of the loop: the head is taken off and its handler is run. */
    method ServeOne(h: Script, n: nat, ghost a: Agenda, ghost trace: seq<Served>) returns (ghost trace': seq<Served>)
      requires Valid() && Ok(a) && Ok(Model()) && Due(Model()) && n == |trace| && nCyclesMainCounter == a.now
      requires ForwardRun(a, cfg, h, 0) && Leads(a, cfg, h, 0, trace, Model())
      requires Near(a) && CalmRun(a, cfg, h, 0) ==> Near(Model())
      modifies this, ev
      ensures Valid() && Ok(old(Model())) && Ok(Model()) && nCyclesMainCounter == a.now && |trace'| == n + 1
      ensures Leads(a, cfg, h, 0, trace', Model()) && LateIn(Model()) < LateIn(old(Model()))
      ensures Near(a) && CalmRun(a, cfg, h, 0) ==> Near(Model())
    {
      hide Ok, Represents, ForwardRun, ForwardServe, CalmRun, CalmServe, LateIn, Serve, Due, Wellformed, Near, Leads;
      ghost var m := Model();
      ReachedServe(a, cfg, h, trace, m);
      ServeFacts(m, cfg, h, n);
      if Near(a) && CalmRun(a, cfg, h, 0) {
        CalmServed(m, cfg, h, n);
      }
      var i := nCyclesFirst;
      ghost var served := Serve(m, cfg, h(i, n));
      LeadsStep(a, cfg, h, 0, trace, m);
      trace' := trace + [Served(i, m.time[i])];
      assert Leads(a, cfg, h, 0, trace', served);
      PopCycles();
      PerformAll(h(i, n));
      OkOf();
      assert Model() == served;
    }

    /** cycInt.c:117-123 */
    method ServeCycles(h: Script) returns (ghost trace: seq<Served>)
      requires Valid() && nCyclesMainCounter < NEVER && Ok(Model()) && ForwardRun(Model(), cfg, h, 0)
      modifies this, ev
      ensures Valid() && Ok(old(Model())) && Ok(Model()) && Runs(old(Model()), cfg, h, 0, trace, Model())
      ensures Near(old(Model())) && CalmRun(old(Model()), cfg, h, 0) ==> Near(Model())
    {
      hide Ok, Represents, ForwardRun, ForwardServe, CalmRun, CalmServe,
        LateIn, Serve, Due, Runs, Wellformed, Near, Leads;
      OkOf();
      ghost var a := Model();
      var n := 0;
      trace := [];
      LeadsNowhere(a, cfg, h, 0);
      HeadDue(ev[..], a);
      while ev[nCyclesFirst].time <= nCyclesMainCounter
        invariant Valid() && Ok(Model()) && nCyclesMainCounter == a.now && n == |trace|
        invariant nCyclesFirst < NUM_EVENTS
        invariant ev[nCyclesFirst].time <= nCyclesMainCounter <==> Due(Model())
        invariant Leads(a, cfg, h, 0, trace, Model())
        invariant Near(a) && CalmRun(a, cfg, h, 0) ==> Near(Model())
        decreases LateIn(Model())
      {
        trace := ServeOne(h, n, a, trace);
        n := n + 1;
        HeadDue(ev[..], Model());
      }
      LeadsEnd(a, cfg, h, 0, trace, Model());
    }

    /** One turn of the second loop. */
    method ServeTimeOne(g: Script, n: nat, ghost a: Agenda, ghost trace: seq<Served>, ghost c: nat)
      returns (ghost trace': seq<Served>)
      requires Valid() && Ok(a) && Ok(Model()) && TimeDue(Model()) && n == |trace| && nCyclesMainCounter == a.now
      requires Near(Model()) && nTimeNow <= c < HALF
      requires ForwardTimeRun(a, cfg, g, 0, c) && LeadsTime(a, cfg, g, 0, trace, Model())
      modifies this, ev
      ensures Valid() && Ok(old(Model())) && Ok(Model()) && nCyclesMainCounter == a.now && |trace'| == n + 1
      ensures Near(Model()) && nTimeNow <= c
      ensures LeadsTime(a, cfg, g, 0, trace', Model()) && LateTimes(Model(), c) < LateTimes(old(Model()), c)
    {
      hide Ok, Represents, ForwardTimeRun, ForwardTimeServe, LateTimes, ServeTime, Wellformed, Near, LeadsTime, Ahead;
      ghost var m := Model();
      ReachedServeTime(a, cfg, g, trace, m, c);
      ServeTimeFacts(m, cfg, g, n, c);
      var i := nTimeFirst;
      ghost var served := ServeTime(m, cfg, g(i, n));
      LeadsTimeStep(a, cfg, g, 0, trace, m);
      trace' := trace + [Served(i, m.time[i])];
      assert LeadsTime(a, cfg, g, 0, trace', served);
      PopTimes();
      PerformAll(g(i, n));
      OkOf();
      assert Model() == served;
    }

    /** cycInt.c:124-143, for a clock reading and a bound c on the readings of the handlers. */
    method ServeTimes(reading: nat, g: Script, ghost c: nat) returns (ghost trace: seq<Served>)
      requires Valid() && reading <= c < HALF && Near(Model().(clock := reading))
      requires Ok(Model().(clock := reading)) && ForwardTimeRun(Model().(clock := reading), cfg, g, 0, c)
      modifies this, ev
      ensures Valid() && Ok(old(Model()).(clock := reading))
      ensures RunsTime(old(Model()).(clock := reading), cfg, g, 0, trace, Model())
    {
      hide Ok, Represents, ForwardTimeRun, ForwardTimeServe, LateTimes,
        ServeTime, RunsTime, Wellformed, Near, LeadsTime;
      OkOf();
      ClockMoved(Model(), reading);
      nTimeNow := reading;
      ghost var a := Model();
      var n := 0;
      trace := [];
      LeadsNowhereTime(a, cfg, g, 0);
      while nTimeFirst != 0
        invariant Valid() && Ok(Model()) && nCyclesMainCounter == a.now && n == |trace|
        invariant Near(Model()) && nTimeNow <= c
        invariant LeadsTime(a, cfg, g, 0, trace, Model())
        decreases LateTimes(Model(), c)
      {
        HeadAhead(ev[..], Model());
        var diff := Signed(ev[nTimeFirst].time - nTimeNow);
        if diff > 0 {
          LeadsTimeEnd(a, cfg, g, 0, trace, Model());
          if diff < CHECK_INTERVAL {
            CheckMoved(Model(), (nCyclesMainCounter + diff * cfg.freq) % U64);
            nCheckCycles := (nCyclesMainCounter + diff * cfg.freq) % U64;
            return;
          }
          break;
        }
        trace := ServeTimeOne(g, n, a, trace, c);
        n := n + 1;
      }
      HeadNone(Model());
      LeadsTimeEnd(a, cfg, g, 0, trace, Model());
      CheckMoved(Model(), (nCyclesMainCounter + CHECK_INTERVAL * cfg.freq) % U64);
      nCheckCycles := (nCyclesMainCounter + CHECK_INTERVAL * cfg.freq) % U64;
    }

    /** CycInt_AddCycles: the due cycle events, then, when a check is due, the time events. */
    method Advance(cycles: nat, reading: nat, h: Script, g: Script, ghost c: nat)
      returns (ghost mid: Agenda, ghost trace: seq<Served>, ghost late: seq<Served>)
      requires Valid() && nCyclesMainCounter + cycles < NEVER && reading <= c < HALF
      requires Near(Model()) && Ok(Model().(now := nCyclesMainCounter + cycles))
      requires Drivable(Model().(now := nCyclesMainCounter + cycles), cfg, h, g, reading, c)
      modifies this, ev
      ensures Valid() && Ok(mid) && Ok(mid.(clock := reading))
      ensures var a := old(Model()).(now := old(nCyclesMainCounter) + cycles);
        Ok(a) && Runs(a, cfg, h, 0, trace, mid)
      ensures if mid.check <= mid.now then RunsTime(mid.(clock := reading), cfg, g, 0, late, Model())
              else Model() == mid && late == []
    {
      hide Ok, Represents, ForwardTimeRun, ForwardRun, CalmRun, RunsTime, Runs, Near;
      OkOf();
      AdvanceOk(Model(), cycles);
      NearMoved(Model(), nCyclesMainCounter + cycles);
      nCyclesMainCounter := nCyclesMainCounter + cycles;
      ghost var a := Model();
      trace := ServeCycles(h);
      mid := Model();
      RunsNow(a, cfg, h, 0, trace, mid);
      ClockMoved(mid, reading);
      ClockNear(mid, reading);
      late := [];
      if nCheckCycles <= nCyclesMainCounter {
        late := ServeTimes(reading, g, c);
      }
    }

    lemma OkOf()
      requires Valid()
      ensures Ok(Model())
    {
      hide Ok, Represents;
    }

    /** The check at the head of every Add and Update function. */
    method Clear(i: nat)
      requires Valid() && IsEvent(i)
      modifies this, ev
      ensures Valid() && Model() == Drop(old(Model()), i) && i !in cyc && i !in tim
      ensures ev.Length == NUM_EVENTS && ev[i].time == old(Model()).time[i] < U64
      ensures forall t: nat :: t < U64 ==>
        ToCycles(Model(), i, t) == ToCycles(old(Model()), i, t) && ToTime(Model(), i, t) == ToTime(old(Model()), i, t)
    {
      hide Represents;
      ghost var a := Model();
      DropOk(a, i, 0);
      DroppedTwice(a, i);
      if ev[i].kind != NONE {
        RemovePendingEvent(i);
      } else {
        NotQueued(ev[..], a, i);
      }
      assert Times(ev[..])[i] == ev[i].time;
    }
  }

  lemma RemoveIs(a: Agenda, cfg: Config, i: nat)
    requires Ok(a) && IsEvent(i)
    ensures Apply(a, cfg, Remove(i)) == Drop(a, i)
  {
    hide Ok;
  }

  /** The sentinel is never due. */
  lemma HeadDue(ev: seq<Event>, a: Agenda)
    requires Ok(a) && Represents(ev, a.cyc, a.tim) && Times(ev) == a.time && a.now < NEVER
    ensures First(a.cyc) < NUM_EVENTS && (ev[First(a.cyc)].time <= a.now <==> Due(a))
  {
    hide Linked, Typed;
    LinkedParts(ev, a.cyc);
    assert ev[First(a.cyc)].time == Times(ev)[First(a.cyc)];
  }

  lemma ServeFacts(m: Agenda, cfg: Config, h: Script, n: nat)
    requires Ok(m) && Due(m) && ForwardServe(m, cfg, h, n)
    ensures m.cyc != [] && m.cyc[0] < |m.time| && Wellformed(h(m.cyc[0], n)) && Ok(Pop(m))
    ensures var b := Serve(m, cfg, h(m.cyc[0], n));
      b == ApplyAll(Pop(m), cfg, h(m.cyc[0], n)) && LateIn(b) < LateIn(m) && b.now == m.now
  {
    hide LateIn, Wellformed, ForwardServe;
    PopOk(m);
    ServeLessLate(m, cfg, h, n);
  }

  /** What is required of the run holds where the loop has come to. */
  lemma ReachedServe(a: Agenda, cfg: Config, h: Script, trace: seq<Served>, m: Agenda)
    requires Ok(a) && Ok(m) && Leads(a, cfg, h, 0, trace, m)
    ensures ForwardRun(a, cfg, h, 0) ==> ForwardServe(m, cfg, h, |trace|)
    ensures CalmRun(a, cfg, h, 0) ==> CalmServe(m, cfg, h, |trace|)
  {
    hide Ok, Leads, ForwardServe, CalmServe;
    assert 0 + |trace| == |trace|;
  }

  lemma ReachedServeTime(a: Agenda, cfg: Config, g: Script, trace: seq<Served>, m: Agenda, c: nat)
    requires Ok(a) && Ok(m) && LeadsTime(a, cfg, g, 0, trace, m) && ForwardTimeRun(a, cfg, g, 0, c)
    ensures ForwardTimeServe(m, cfg, g, |trace|, c)
  {
    hide Ok, LeadsTime, ForwardTimeServe;
    assert 0 + |trace| == |trace|;
  }

  /** The handlers of one call move deadlines forward where the loops come to run
      them; the second loop starts where the first one ends. */
  ghost predicate Drivable(a: Agenda, cfg: Config, h: Script, g: Script, reading: nat, c: nat)
    requires Ok(a)
  {
    ForwardRun(a, cfg, h, 0) && CalmRun(a, cfg, h, 0) &&
    forall trace, m :: Runs(a, cfg, h, 0, trace, m) && Ok(m.(clock := reading)) ==>
      ForwardTimeRun(m.(clock := reading), cfg, g, 0, c)
  }

  lemma ClockNear(a: Agenda, reading: nat)
    requires Near(a) && reading < HALF
    ensures Near(a.(clock := reading))
  {
  }

  lemma NearMoved(a: Agenda, now: nat)
    requires Near(a)
    ensures Near(a.(now := now))
  {
  }

  lemma HeadAhead(ev: seq<Event>, a: Agenda)
    requires Ok(a) && Represents(ev, a.cyc, a.tim) && Times(ev) == a.time && First(a.tim) != 0
    ensures a.tim != [] && First(a.tim) < NUM_EVENTS
    ensures Ahead(a) == Signed(ev[First(a.tim)].time - a.clock) && (TimeDue(a) <==> Ahead(a) <= 0)
  {
    hide Linked, Typed, Signed;
    LinkedParts(ev, a.tim);
    assert ev[First(a.tim)].time == Times(ev)[First(a.tim)];
  }

  lemma HeadNone(a: Agenda)
    requires Ok(a) && (First(a.tim) == 0 || (a.tim != [] && Ahead(a) > 0))
    ensures !TimeDue(a) && (First(a.tim) == 0 ==> a.tim == [])
  {
    hide Signed;
    OkEvents(a);
  }

  lemma ServeTimeFacts(m: Agenda, cfg: Config, g: Script, n: nat, c: nat)
    requires Ok(m) && Near(m) && m.clock <= c < HALF && TimeDue(m) && ForwardTimeServe(m, cfg, g, n, c)
    ensures m.tim != [] && m.tim[0] < |m.time| && Wellformed(g(m.tim[0], n)) && Ok(PopTime(m))
    ensures var b := ServeTime(m, cfg, g(m.tim[0], n));
      b == ApplyAll(PopTime(m), cfg, g(m.tim[0], n)) && b.now == m.now && Near(b) && b.clock <= c &&
      LateTimes(b, c) < LateTimes(m, c)
  {
    hide LateTimes, Wellformed, ForwardTimeServe, Near, Ok, Ahead;
    PopTimeOk(m);
    OkEvents(m);
    ServeTimeProgress(m, cfg, g, n, c);
  }

  lemma PoppedIs(ev: seq<Event>, ev': seq<Event>, i: nat)
    requires |ev| == NUM_EVENTS && IsEvent(i) && ev[i].next < NUM_EVENTS
    requires var ev1 := ev[i := ev[i].(kind := NONE)];
      ev' == ev1[ev[i].next := ev1[ev[i].next].(prev := 0)]
    ensures ev' == Popped(ev, i)
  {
  }

  lemma DroppedTwice(a: Agenda, i: nat)
    requires Ok(a) && IsEvent(i)
    ensures Ok(Drop(a, i)) && Drop(Drop(a, i), i) == Drop(a, i)
    ensures i !in Drop(a, i).cyc && i !in Drop(a, i).tim
    ensures forall t: nat :: t < U64 ==>
      ToCycles(Drop(a, i), i, t) == ToCycles(a, i, t) && ToTime(Drop(a, i), i, t) == ToTime(a, i, t)
  {
    hide Ok;
    DropOk(a, i, 0);
    WithoutAbsent(Drop(a, i).cyc, i);
    WithoutAbsent(Drop(a, i).tim, i);
  }

  lemma CycleTimeIs(a: Agenda, cfg: Config, i: nat, cycleTime: nat, fast: nat)
    requires Ok(a) && IsEvent(i)
    ensures var c := Delay(cfg, cycleTime, fast) * cfg.freq;
      Apply(a, cfg, AddCycleTime(i, cycleTime, fast)) == Apply(a, cfg, AddCycles(i, c)) &&
      Apply(a, cfg, UpdateCycleTime(i, cycleTime, fast)) == Apply(a, cfg, UpdateCycles(i, c))
  {
    hide Ok, Requeue;
  }

  lemma NotQueued(ev: seq<Event>, a: Agenda, i: nat)
    requires Represents(ev, a.cyc, a.tim) && IsEvent(i) && ev[i].kind == NONE
    ensures Drop(a, i) == a
  {
    hide Linked;
    TypedAt(ev, a.cyc, a.tim, i);
    WithoutAbsent(a.cyc, i);
    WithoutAbsent(a.tim, i);
  }

  lemma CheckMoved(a: Agenda, check: nat)
    requires Ok(a) && check < U64
    ensures Ok(a.(check := check))
  {
  }

  lemma ClockMoved(a: Agenda, clock: nat)
    requires Ok(a) && clock < U64
    ensures Ok(a.(clock := clock))
  {
  }

  lemma TableRetimed(time: seq<nat>, i: nat, t: nat)
    requires Table(time) && IsEvent(i) && t < U64
    ensures Table(time[i := t])
  {
  }

  lemma NextInRange(ids: seq<nat>, k: nat)
    requires Events(ids)
    ensures From(ids, k) < NUM_EVENTS && (0 < k <= |ids| ==> Before(ids, k) < NUM_EVENTS)
  {
  }

  lemma LinkedAfterMark(ev: seq<Event>, a: Agenda, i: nat, t: nat, cycles: bool)
    requires Represents(ev, a.cyc, a.tim) && IsEvent(i)
    ensures Linked(Marks(ev, i, t, cycles), a.cyc) && Linked(Marks(ev, i, t, cycles), a.tim)
    ensures Times(Marks(ev, i, t, cycles)) == Times(ev)[i := t] && Times(ev)[i := t][i] == t
  {
    hide Linked;
    Marked(ev, a.cyc, a.tim, i, if cycles then CYCLES else TIME, t);
  }
}
