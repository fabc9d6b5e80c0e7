/** Paging through the events of a run: one page per call, following the returned offset. */
module EventPaging {
  import opened Wrappers

  datatype Page<T> = Page(items: seq<T>, nextOffset: nat, total: nat)

  /** The part of the list that starts at `offset`, cut to `limit` items; limit 0 or less means no cut. */
  function PageOf<T>(items: seq<T>, offset: int, limit: int): (p: Page<T>) {
    var start := if offset > 0 then offset else 0;
    var size := if limit > 0 then limit else 0;
    var sliced := if start <= |items| then items[start..] else [];
    var cut := if size > 0 && size < |sliced| then sliced[..size] else sliced;
    Page(cut, start + |cut|, |items|)
  }

  /**
   A page for an offset and a limit: the list from the offset on, as much of it as the limit allows, where a limit
   of 0 or less allows all; the next offset comes right after it, and the total is the length of the list.
   */
  predicate IsPage<T(==)>(items: seq<T>, offset: int, limit: int, p: Page<T>) {
    var start := if offset > 0 then offset else 0;
    && p.total == |items| && p.nextOffset == start + |p.items|
    && (start >= |items| ==> p.items == [])
    && (start < |items| ==>
          p.items <= items[start..] && if 0 < limit < |items| - start then |p.items| == limit
                                       else |p.items| == |items| - start)
  }

  lemma PageIsPage<T>(items: seq<T>, offset: int, limit: int)
    ensures IsPage(items, offset, limit, PageOf(items, offset, limit))
  {}

  /** One look at the store: the run is unknown, or its events so far, whether it has ended, and the time. */
  datatype Poll<T> = Missing | Seen(items: seq<T>, terminal: bool, now: int)

  predicate Answers<T>(poll: Poll<T>, offset: int, follow: bool, deadline: int) {
    match poll
    case Missing => true
    case Seen(items, terminal, now) =>
      |items| > (if offset > 0 then offset else 0) || !follow || terminal || now >= deadline
  }

  /**
   Polls until there is something to say; the answer comes from the first poll that allows one: nothing if the
   run is unknown by then, else a page. The polls given last at least until the deadline or until the run is gone.
   */
  method GetRunEvents<T>(polls: seq<Poll<T>>, offset: int, limit: int, follow: bool, deadline: int)
    returns (page: Option<Page<T>>, k: nat)
    requires polls != [] && (polls[|polls| - 1].Missing? || polls[|polls| - 1].now >= deadline)
    ensures k < |polls| && page.None? == polls[k].Missing?
    ensures page.Some? ==> IsPage(polls[k].items, offset, limit, page.value)
    ensures page.Some? ==> follow && !polls[k].terminal && polls[k].now < deadline ==>
              |polls[k].items| > 0 && |polls[k].items| > offset
    ensures forall j :: 0 <= j < k ==>
              polls[j].Seen? && follow && !polls[j].terminal && polls[j].now < deadline
              && (|polls[j].items| == 0 || |polls[j].items| <= offset)
  {
    k := 0;
    while !Answers(polls[k], offset, follow, deadline)
      invariant k < |polls|
      invariant forall j :: 0 <= j < k ==> !Answers(polls[j], offset, follow, deadline)
      decreases |polls| - k
    {
      k := k + 1;
    }
    if polls[k].Missing? {
      return None, k;
    }
    PageIsPage(polls[k].items, offset, limit);
    page := Some(PageOf(polls[k].items, offset, limit));
  }

  /** The events collected, and the offset reached, by following next_offset from 0 for k calls. */
  function Follow<T>(lists: seq<seq<T>>, limits: seq<int>, k: nat): (r: (seq<T>, nat))
    requires k <= |lists| == |limits|
  {
    if k == 0 then ([], 0)
    else
      var (seen, offset) := Follow(lists, limits, k - 1);
      var page := PageOf(lists[k - 1], offset, limits[k - 1]);
      (seen + page.items, page.nextOffset)
  }

  ghost predicate Growing<T>(lists: seq<seq<T>>) {
    forall i, j :: 0 <= i <= j < |lists| ==> lists[i] <= lists[j]
  }

  /** A page continues what comes before its offset. */
  lemma PageExtends<T>(list: seq<T>, offset: nat, limit: int)
    requires offset <= |list|
    ensures var page := PageOf(list, offset, limit);
      page.nextOffset <= |list| && list[..page.nextOffset] == list[..offset] + page.items && page.total == |list|
  {}

  /**
   Lossless: whatever the limits of the calls, the pages of a growing list put together are the prefix of
   the list that ends at the returned offset, without gap or repetition; it is the whole list exactly when that
   offset has reached the total of the last page.
   */
  lemma {:induction false} FollowIsPrefix<T>(lists: seq<seq<T>>, limits: seq<int>, k: nat)
    requires 0 < k <= |lists| == |limits| && Growing(lists)
    ensures var (seen, offset) := Follow(lists, limits, k);
      && offset <= |lists[k - 1]| && seen == lists[k - 1][..offset]
      && var last := PageOf(lists[k - 1], Follow(lists, limits, k - 1).1, limits[k - 1]);
         offset == last.nextOffset && (last.nextOffset >= last.total <==> seen == lists[k - 1])
  {
    var list := lists[k - 1];
    if k > 1 {
      FollowIsPrefix(lists, limits, k - 1);
      var (seen, offset) := Follow(lists, limits, k - 1);
      assert lists[k - 2] <= list;
      assert list[..offset] == lists[k - 2][..offset];
    }
    PageExtends(list, Follow(lists, limits, k - 1).1, limits[k - 1]);
  }

  /** Every call moves on unless nothing new is there, and reaches the end when its limit allows. */
  lemma FollowAdvances<T>(lists: seq<seq<T>>, limits: seq<int>, k: nat)
    requires k < |lists| == |limits| && Growing(lists)
    ensures var before, after := Follow(lists, limits, k).1, Follow(lists, limits, k + 1).1;
      && (before < |lists[k]| ==> before < after)
      && (limits[k] <= 0 || |lists[k]| - before <= limits[k] ==> after == |lists[k]|)
      && (limits[k] > 0 ==> after - before <= limits[k])
  {
    if k > 0 {
      FollowIsPrefix(lists, limits, k);
      assert lists[k - 1] <= lists[k];
    }
  }
}
