/**
 The Hikvision adapter: pages of a search put back together, the search window, and the cursor
 that keeps each event in exactly one sync. Instants are milliseconds.
 */
module Hikvision {
  import opened Sorting
  import opened Wrappers

  const SMALL_PAGE_SIZE := 10
  const SEARCH_END_MARGIN_MS := 60 * 60_000

  function Min(a: int, b: int): int {
    if a < b then a else b
  }

  function Max(a: int, b: int): int {
    if a < b then b else a
  }

  const MAX_PAGES: nat := 1_000

  // ---------------------------------------------------------------- pages

  datatype Status = NoMatch | More | Complete

  datatype Page<T> = Page(status: Status, items: seq<T>)

  /**
   A terminal holding one search's result. It answers at most `cap` items a page, and refuses a
   request above `limits[position]` when that is set.
   */
  datatype Terminal<T> = Terminal(items: seq<T>, cap: nat, limits: map<nat, nat>)

  predicate Rejects<T>(t: Terminal<T>, position: nat, requested: nat) {
    position in t.limits && requested > t.limits[position]
  }

  function PageOf<T>(t: Terminal<T>, position: nat, requested: nat): Page<T>
    requires position <= |t.items|
  {
    var slice := t.items[position..Min(position + Min(requested, t.cap), |t.items|)];
    Page(
      if t.items == [] then NoMatch else if position + |slice| < |t.items| then More else Complete,
      slice)
  }

  datatype Outcome<T> =
    | Done(items: seq<T>)
    | Refused    // not even the small page is accepted
    | Unfinished // still more after the last page allowed

  /** The page size in use once the page at `position` was asked for; None when it is refused. */
  function SizeAt<T>(t: Terminal<T>, position: nat, size: nat): Option<nat> {
    if !Rejects(t, position, size) then Some(size)
    else if size <= SMALL_PAGE_SIZE || Rejects(t, position, SMALL_PAGE_SIZE) then None
    else Some(SMALL_PAGE_SIZE)
  }

  /** What asking page after page from `position` on comes to. */
  function Listing<T>(t: Terminal<T>, position: nat, size: nat, pages: nat): Outcome<T>
    requires position <= |t.items|
    decreases pages
  {
    if pages == 0 then Unfinished
    else
      var next := SizeAt(t, position, size);
      if next == None then Refused
      else
        var page := PageOf(t, position, next.value);
        if page.status != More || page.items == [] then Done(t.items[..position + |page.items|])
        else Listing(t, position + |page.items|, next.value, pages - 1)
  }

  /** What one page asked for leaves of the page size. */
  function Lowered<T>(t: Terminal<T>, position: nat, size: nat): nat {
    if Rejects(t, position, size) && size > SMALL_PAGE_SIZE then SMALL_PAGE_SIZE else size
  }

  /** The page size in use once the listing is over. */
  function SizeAfter<T>(t: Terminal<T>, position: nat, size: nat, pages: nat): nat
    requires position <= |t.items|
    decreases pages
  {
    if pages == 0 then size
    else
      var next := SizeAt(t, position, size);
      if next == None then Lowered(t, position, size)
      else
        var page := PageOf(t, position, next.value);
        if page.status != More || page.items == [] then next.value
        else SizeAfter(t, position + |page.items|, next.value, pages - 1)
  }

  /** One page of a listing. */
  lemma OnePage<T>(t: Terminal<T>, position: nat, size: nat, pages: nat)
    requires position <= |t.items|
    ensures pages == 0 ==>
              Listing(t, position, size, pages) == Unfinished && SizeAfter(t, position, size, pages) == size
    ensures pages > 0 && SizeAt(t, position, size) == None ==>
              && Listing(t, position, size, pages) == Refused
              && SizeAfter(t, position, size, pages) == Lowered(t, position, size)
    ensures pages > 0 && SizeAt(t, position, size).Some? ==>
              var next := SizeAt(t, position, size).value;
              var page := PageOf(t, position, next);
              var there := position + |page.items|;
              && there <= |t.items| && t.items[..position] + page.items == t.items[..there]
              && (if page.status != More || page.items == [] then
                    && Listing(t, position, size, pages) == Done(t.items[..there])
                    && SizeAfter(t, position, size, pages) == next
                  else
                    && Listing(t, position, size, pages) == Listing(t, there, next, pages - 1)
                    && SizeAfter(t, position, size, pages) == SizeAfter(t, there, next, pages - 1))
  {
  }

  /** A page is had unless the terminal takes not even the smaller of the two sizes there; large if it takes that. */
  lemma PageTaken<T>(t: Terminal<T>, position: nat, size: nat)
    ensures SizeAt(t, position, size) == None
       <==> position in t.limits && t.limits[position] < Min(size, SMALL_PAGE_SIZE)
    ensures SizeAt(t, position, size) == Some(size) <==> !(position in t.limits && t.limits[position] < size)
    ensures SizeAt(t, position, size).Some? ==>
              SizeAt(t, position, size).value == size || SizeAt(t, position, size).value == Min(size, SMALL_PAGE_SIZE)
  {
  }

  /** A listing keeps the size or lowers it once, never where all is taken at that size. */
  lemma {:induction false} SizeSettles<T>(t: Terminal<T>, position: nat, size: nat, pages: nat)
    requires position <= |t.items|
    ensures SizeAfter(t, position, size, pages) == size
            || SizeAfter(t, position, size, pages) == Min(size, SMALL_PAGE_SIZE)
    ensures (forall p :: p in t.limits ==> t.limits[p] >= size) ==> SizeAfter(t, position, size, pages) == size
    decreases pages
  {
    if pages > 0 && SizeAt(t, position, size).Some? {
      var next := SizeAt(t, position, size).value;
      var page := PageOf(t, position, next);
      if page.status == More && page.items != [] {
        SizeSettles(t, position + |page.items|, next, pages - 1);
      }
    }
  }

  /** And always where it is refused. */
  lemma {:induction false} SizeRefused<T>(t: Terminal<T>, position: nat, size: nat, pages: nat)
    requires position <= |t.items| && Listing(t, position, size, pages) == Refused
    ensures SizeAfter(t, position, size, pages) == Min(size, SMALL_PAGE_SIZE)
    decreases pages
  {
    var taken := SizeAt(t, position, size);
    if taken.Some? {
      PageTaken(t, position, size);
      var page := PageOf(t, position, taken.value);
      hide Rejects, SizeAt, Lowered, PageOf;
      SizeRefused(t, position + |page.items|, taken.value, pages - 1);
    }
  }

  /** How many items the pages left can deliver in all, counting those already there. */
  function Reach<T>(t: Terminal<T>, position: nat, size: nat, pages: nat): int
    decreases pages
  {
    if pages == 0 then position
    else
      var next := SizeAt(t, position, size);
      if next == None then position
      else Reach(t, position + Max(0, Min(next.value, t.cap)), next.value, pages - 1)
  }

  predicate TakesSmallPages<T>(t: Terminal<T>) {
    t.cap >= 1 && forall p :: p in t.limits ==> t.limits[p] >= SMALL_PAGE_SIZE
  }

  /** The whole list, once and in order, exactly when it fits in the pages allowed. */
  lemma {:induction false} ListingExact<T>(t: Terminal<T>, position: nat, size: nat, pages: nat)
    requires TakesSmallPages(t) && size >= 1 && position <= |t.items|
    requires position < |t.items| || position == 0
    requires pages >= 1
    ensures Listing(t, position, size, pages) == if |t.items| <= Reach(t, position, size, pages) then Done(t.items)
                                                 else Unfinished
    decreases pages
  {
    hide TakesSmallPages, SizeAt, Listing, Reach;
    SizeAccepted(t, position, size);
    var next := SizeAt(t, position, size).value;
    if position + Min(next, t.cap) >= |t.items| {
      ListingEnds(t, position, size, pages);
    } else {
      ListingGoesOn(t, position, size, pages);
      NoPages(t, position + Min(next, t.cap), next);
      if pages > 1 {
        ListingExact(t, position + Min(next, t.cap), next, pages - 1);
      }
    }
  }

  lemma NoPages<T>(t: Terminal<T>, position: nat, size: nat)
    requires position <= |t.items|
    ensures Listing(t, position, size, 0) == Unfinished && Reach(t, position, size, 0) == position
  {
  }

  /** The last page of the list. */
  lemma ListingEnds<T>(t: Terminal<T>, position: nat, size: nat, pages: nat)
    requires TakesSmallPages(t) && size >= 1 && position <= |t.items|
    requires position < |t.items| || position == 0
    requires pages >= 1 && SizeAt(t, position, size).Some?
    requires position + Min(SizeAt(t, position, size).value, t.cap) >= |t.items|
    ensures Listing(t, position, size, pages) == Done(t.items) && Reach(t, position, size, pages) >= |t.items|
  {
    hide PageOf, Listing, SizeAfter, SizeAt, TakesSmallPages, Reach;
    SizeAccepted(t, position, size);
    var next := SizeAt(t, position, size).value;
    OnePage(t, position, size, pages);
    PageFacts(t, position, next);
    ReachStep(t, position, size, pages);
    ReachGrows(t, position + Min(next, t.cap), next, pages - 1);
  }

  /** A page that is not the last: both the list and the room left move on by it. */
  lemma ListingGoesOn<T>(t: Terminal<T>, position: nat, size: nat, pages: nat)
    requires TakesSmallPages(t) && size >= 1 && position <= |t.items|
    requires position < |t.items| || position == 0
    requires pages >= 1 && SizeAt(t, position, size).Some?
    requires position + Min(SizeAt(t, position, size).value, t.cap) < |t.items|
    ensures var next := SizeAt(t, position, size).value;
            var there := position + Min(next, t.cap);
            && next >= 1 && there > position
            && Listing(t, position, size, pages) == Listing(t, there, next, pages - 1)
            && Reach(t, position, size, pages) == Reach(t, there, next, pages - 1)
  {
    hide PageOf, Listing, SizeAfter, SizeAt, TakesSmallPages, Reach;
    SizeAccepted(t, position, size);
    OnePage(t, position, size, pages);
    PageFacts(t, position, SizeAt(t, position, size).value);
    ReachStep(t, position, size, pages);
  }

  lemma ReachStep<T>(t: Terminal<T>, position: nat, size: nat, pages: nat)
    requires pages >= 1 && SizeAt(t, position, size).Some?
    ensures var next := SizeAt(t, position, size).value;
            Reach(t, position, size, pages) == Reach(t, position + Min(next, t.cap), next, pages - 1)
  {
  }

  lemma SizeAccepted<T>(t: Terminal<T>, position: nat, size: nat)
    requires TakesSmallPages(t) && size >= 1
    ensures t.cap >= 1 && SizeAt(t, position, size).Some? && SizeAt(t, position, size).value >= 1
  {
  }

  lemma PageFacts<T>(t: Terminal<T>, position: nat, size: nat)
    requires t.cap >= 1 && size >= 1 && position <= |t.items|
    requires position < |t.items| || position == 0
    ensures var page, n := PageOf(t, position, size), position + Min(size, t.cap);
            && (page.status == More <==> n < |t.items|)
            && (page.status == More ==> position + |page.items| == n && page.items != [])
            && (page.status != More ==> t.items[..position + |page.items|] == t.items)
  {
  }

  lemma {:induction false} ReachGrows<T>(t: Terminal<T>, position: nat, size: nat, pages: nat)
    ensures Reach(t, position, size, pages) >= position
    decreases pages
  {
    if pages > 0 && SizeAt(t, position, size).Some? {
      var next := SizeAt(t, position, size).value;
      ReachGrows(t, position + Max(0, Min(next, t.cap)), next, pages - 1);
    }
  }

  /** Whatever it refuses on the way, small pages always fit. */
  lemma {:induction false} ReachAtLeast<T>(t: Terminal<T>, position: nat, size: nat, pages: nat)
    requires TakesSmallPages(t) && size >= 1
    ensures Reach(t, position, size, pages) >= position + pages * Min(Min(size, SMALL_PAGE_SIZE), t.cap)
    decreases pages
  {
    if pages > 0 {
      var next := SizeAt(t, position, size).value;
      var least := Min(Min(size, SMALL_PAGE_SIZE), t.cap);
      ReachAtLeast(t, position + Min(next, t.cap), next, pages - 1);
      assert Min(Min(next, SMALL_PAGE_SIZE), t.cap) == least;
      assert pages * least == least + (pages - 1) * least;
    }
  }

  /** A terminal that never refuses: the capacity is pages times the capped page. */
  lemma {:induction false} ReachUnrefused<T>(t: Terminal<T>, position: nat, size: nat, pages: nat)
    requires forall p: nat :: !Rejects(t, p, size)
    ensures Reach(t, position, size, pages) == position + pages * Min(size, t.cap)
    decreases pages
  {
    if pages > 0 {
      assert !Rejects(t, position, size);
      ReachUnrefused(t, position + Min(size, t.cap), size, pages - 1);
      assert pages * Min(size, t.cap) == Min(size, t.cap) + (pages - 1) * Min(size, t.cap);
    }
  }

  /**
   The pages put together are the list, once and in order, when it fits in the pages allowed, and
   an error otherwise; with a page size never refused, what fits is pages times the capped size,
   and whatever is refused on the way, small pages always fit.
   */
  lemma PaginationExact<T>(t: Terminal<T>, size: nat, pages: nat)
    requires TakesSmallPages(t) && size >= 1 && pages >= 1
    ensures Listing(t, 0, size, pages) == if |t.items| <= Reach(t, 0, size, pages) then Done(t.items) else Unfinished
    ensures (forall p: nat :: !Rejects(t, p, size)) ==> Reach(t, 0, size, pages) == pages * Min(size, t.cap)
    ensures Reach(t, 0, size, pages) >= pages * Min(Min(size, SMALL_PAGE_SIZE), t.cap)
  {
    ListingExact(t, 0, size, pages);
    ReachAtLeast(t, 0, size, pages);
    if forall p: nat :: !Rejects(t, p, size) {
      ReachUnrefused(t, 0, size, pages);
    }
  }

  // ---------------------------------------------------------------- events

  datatype Event = Event(serial: Option<nat>, time: int, minor: nat, person: string)

  datatype Cursor = Cursor(serial: nat, time: nat)

  datatype Config = Config(minors: seq<nat>, lookbackMs: nat, overlapMs: nat)

  function SerialOrZero(e: Event): int {
    if e.serial.Some? then e.serial.value else 0
  }

  function TimeOf(e: Event): int {
    e.time
  }

  predicate InWindow(e: Event, from: int, to: int) {
    from <= e.time <= to
  }

  /** How often a minor is asked for: a configuration may repeat it. */
  function Asked(minors: seq<nat>, m: nat): nat {
    if minors == [] then 0 else Asked(minors[..|minors| - 1], m) + if minors[|minors| - 1] == m then 1 else 0
  }

  function Copies(e: Event, n: nat): (c: seq<Event>)
    ensures |c| == n && forall i :: 0 <= i < n ==> c[i] == e
  {
    seq(n, i => e)
  }

  /** The events in the range, in the order they were stored, each as often as its minor is asked for. */
  function Matching(log: seq<Event>, minors: seq<nat>, from: int, to: int): seq<Event> {
    if log == [] then []
    else
      var e := log[|log| - 1];
      Matching(log[..|log| - 1], minors, from, to) + Copies(e, if InWindow(e, from, to) then Asked(minors, e.minor)
                                                            else 0)
  }

  /** One search per minor, each answered in time order. */
  function Gathered(log: seq<Event>, minors: seq<nat>, from: int, to: int): seq<Event> {
    if minors == [] then []
    else
      var n := |minors| - 1;
      Gathered(log, minors[..n], from, to) + SortBy(Matching(log, [minors[n]], from, to), TimeOf)
  }

  function EventsFound(log: seq<Event>, minors: seq<nat>, from: int, to: int): seq<Event> {
    SortBy(SortBy(Gathered(log, minors, from, to), TimeOf), SerialOrZero)
  }

  predicate Distinct(minors: seq<nat>) {
    forall i, j :: 0 <= i < j < |minors| ==> minors[i] != minors[j]
  }

  /** The terminal numbers its events upwards. */
  predicate Numbered(log: seq<Event>) {
    && (forall i :: 0 <= i < |log| ==> log[i].serial.Some?)
    && (forall i, j :: 0 <= i < j < |log| ==> log[i].serial.value < log[j].serial.value)
  }

  lemma AskedOneMore(minors: seq<nat>, m: nat, x: nat)
    ensures Asked(minors + [m], x) == Asked(minors, x) + if x == m then 1 else 0
    ensures Asked([m], x) == if x == m then 1 else 0
  {
    assert (minors + [m])[..|minors|] == minors;
    assert [m][..0] == [];
  }

  lemma {:induction false} AskedMember(minors: seq<nat>, m: nat)
    ensures Asked(minors, m) > 0 <==> m in minors
  {
    if minors != [] {
      AskedMember(minors[..|minors| - 1], m);
      assert minors == minors[..|minors| - 1] + [minors[|minors| - 1]];
    }
  }

  lemma {:induction false} AskedOnce(minors: seq<nat>, m: nat)
    requires Distinct(minors)
    ensures Asked(minors, m) <= 1
  {
    if minors != [] {
      AskedOnce(minors[..|minors| - 1], m);
      AskedMember(minors[..|minors| - 1], m);
    }
  }

  lemma CopiesCount(e: Event, n: nat, x: Event)
    ensures multiset(Copies(e, n))[x] == if x == e then n else 0
    decreases n
  {
    if n == 0 {
      assert Copies(e, 0) == [];
    } else {
      CopiesCount(e, n - 1, x);
      assert Copies(e, n) == Copies(e, n - 1) + [e];
    }
  }

  lemma {:induction false} MatchingSplits(log: seq<Event>, minors: seq<nat>, m: nat, from: int, to: int, x: Event)
    ensures multiset(Matching(log, minors + [m], from, to))[x]
         == multiset(Matching(log, minors, from, to))[x] + multiset(Matching(log, [m], from, to))[x]
  {
    if log != [] {
      var e := log[|log| - 1];
      MatchingSplits(log[..|log| - 1], minors, m, from, to, x);
      AskedOneMore(minors, m, e.minor);
      var inside := InWindow(e, from, to);
      CopiesCount(e, if inside then Asked(minors + [m], e.minor) else 0, x);
      CopiesCount(e, if inside then Asked(minors, e.minor) else 0, x);
      CopiesCount(e, if inside then Asked([m], e.minor) else 0, x);
      hide Asked, Copies, InWindow;
    }
  }

  lemma {:induction false} GatheredMultiset(log: seq<Event>, minors: seq<nat>, from: int, to: int)
    ensures multiset(Gathered(log, minors, from, to)) == multiset(Matching(log, minors, from, to))
  {
    hide Matching, SortBy;
    if minors == [] {
      NoMinors(log, from, to);
    } else {
      var n := |minors| - 1;
      var last := Matching(log, [minors[n]], from, to);
      GatheredMultiset(log, minors[..n], from, to);
      SortMultiset(last, TimeOf);
      assert minors[..n] + [minors[n]] == minors;
      assert Gathered(log, minors, from, to) == Gathered(log, minors[..n], from, to) + SortBy(last, TimeOf);
      hide Gathered;
      forall x ensures multiset(Gathered(log, minors, from, to))[x] == multiset(Matching(log, minors, from, to))[x] {
        MatchingSplits(log, minors[..n], minors[n], from, to, x);
      }
    }
  }

  lemma {:induction false} NoMinors(log: seq<Event>, from: int, to: int)
    ensures Matching(log, [], from, to) == []
  {
    if log != [] {
      NoMinors(log[..|log| - 1], from, to);
    }
  }

  lemma {:induction false} MatchingMembers(log: seq<Event>, minors: seq<nat>, from: int, to: int)
    ensures forall e :: e in Matching(log, minors, from, to) <==> e in log && e.minor in minors && InWindow(e, from, to)
  {
    if log != [] {
      var last := log[|log| - 1];
      var before := Matching(log[..|log| - 1], minors, from, to);
      var n := if InWindow(last, from, to) then Asked(minors, last.minor) else 0;
      MatchingMembers(log[..|log| - 1], minors, from, to);
      AskedMember(minors, last.minor);
      assert log == log[..|log| - 1] + [last];
      assert n > 0 ==> Copies(last, n)[0] == last;
      assert forall e :: e in before + Copies(last, n) <==> e in before || (n > 0 && e == last);
      hide Asked, Copies;
    }
  }

  /** Serials never go down, and events with the same serial are the same. */
  predicate BySerial(events: seq<Event>) {
    forall i, j :: 0 <= i <= j < |events| ==> InSerialOrder(events[i], events[j])
  }

  predicate InSerialOrder(a: Event, b: Event) {
    && a.serial.Some? && b.serial.Some?
    && a.serial.value <= b.serial.value
    && (a.serial == b.serial ==> a == b)
  }

  lemma {:induction false} MatchingBySerial(log: seq<Event>, minors: seq<nat>, from: int, to: int)
    requires Numbered(log)
    ensures BySerial(Matching(log, minors, from, to))
  {
    if log != [] {
      var last := log[|log| - 1];
      var before := Matching(log[..|log| - 1], minors, from, to);
      var n := if InWindow(last, from, to) then Asked(minors, last.minor) else 0;
      MatchingBySerial(log[..|log| - 1], minors, from, to);
      MatchingMembers(log[..|log| - 1], minors, from, to);
      forall i | 0 <= i < |before| ensures before[i].serial.Some? && before[i].serial.value < last.serial.value {
        assert before[i] in log[..|log| - 1];
      }
      SerialsAppend(before, last, n);
    }
  }

  lemma SerialsAppend(before: seq<Event>, last: Event, n: nat)
    requires BySerial(before) && last.serial.Some?
    requires forall i :: 0 <= i < |before| ==> before[i].serial.Some? && before[i].serial.value < last.serial.value
    ensures BySerial(before + Copies(last, n))
  {
  }

  lemma SameBySerial(a: seq<Event>, b: seq<Event>)
    requires multiset(a) == multiset(b) && Ordered(a, SerialOrZero) && BySerial(b)
    ensures a == b
  {
    KeysMultiset(a, b, SerialOrZero);
    AscendingUnique(Keys(a, SerialOrZero), Keys(b, SerialOrZero));
    assert |a| == |Keys(a, SerialOrZero)| == |Keys(b, SerialOrZero)| == |b|;
    forall i | 0 <= i < |a| ensures a[i] == b[i] {
      assert a[i] in multiset(a);
      assert a[i] in b;
      var j :| 0 <= j < |b| && b[j] == a[i];
      assert Keys(a, SerialOrZero)[i] == Keys(b, SerialOrZero)[i];
    }
  }

  /**
   The searches by minor, merged and sorted, are the memory's own events in their own order, each as
   often as its minor is asked for.
   */
  lemma SearchIsMatching(log: seq<Event>, minors: seq<nat>, from: int, to: int)
    requires Numbered(log)
    ensures EventsFound(log, minors, from, to) == Matching(log, minors, from, to)
  {
    var all := Gathered(log, minors, from, to);
    GatheredMultiset(log, minors, from, to);
    SortMultiset(all, TimeOf);
    SortMultiset(SortBy(all, TimeOf), SerialOrZero);
    SortOrdered(SortBy(all, TimeOf), SerialOrZero);
    MatchingBySerial(log, minors, from, to);
    SameBySerial(EventsFound(log, minors, from, to), Matching(log, minors, from, to));
  }

  /** By serial, and by time where the serial is the same, as when the firmware gives none. */
  predicate FoundOrder(a: Event, b: Event) {
    SerialOrZero(a) < SerialOrZero(b) || (SerialOrZero(a) == SerialOrZero(b) && a.time <= b.time)
  }

  ghost predicate InFoundOrder(events: seq<Event>) {
    forall i, j :: 0 <= i < j < |events| ==> FoundOrder(events[i], events[j])
  }

  lemma {:induction false} InsertKeepsTimes(x: Event, s: seq<Event>)
    requires InFoundOrder(s) && forall i :: 0 <= i < |s| ==> x.time <= s[i].time
    ensures InFoundOrder(Insert(x, s, SerialOrZero))
    ensures multiset(Insert(x, s, SerialOrZero)) == multiset(s) + multiset{x}
  {
    InsertMultiset(x, s, SerialOrZero);
    if s != [] {
      if SerialOrZero(x) <= SerialOrZero(s[0]) {
        assert forall j :: 0 <= j < |s| ==> FoundOrder(x, s[j]) by {
          assert forall j :: 0 < j < |s| ==> FoundOrder(s[0], s[j]);
        }
      } else {
        assert forall i :: 0 <= i < |s[1..]| ==> s[1..][i] == s[i + 1];
        InsertKeepsTimes(x, s[1..]);
        var rest := Insert(x, s[1..], SerialOrZero);
        forall j | 0 <= j < |rest| ensures FoundOrder(s[0], rest[j]) {
          assert rest[j] in multiset(rest);
          assert rest[j] == x || rest[j] in s[1..];
        }
      }
    }
  }

  lemma {:induction false} StableByTime(s: seq<Event>)
    requires Ordered(s, TimeOf)
    ensures InFoundOrder(SortBy(s, SerialOrZero))
  {
    if s != [] {
      assert forall i, j :: 0 <= i < j < |s[1..]| ==>
                              TimeOf(s[1..][i]) == TimeOf(s[i + 1]) && TimeOf(s[1..][j]) == TimeOf(s[j + 1]);
      StableByTime(s[1..]);
      SortMultiset(s[1..], SerialOrZero);
      var sorted := SortBy(s[1..], SerialOrZero);
      forall i | 0 <= i < |sorted| ensures s[0].time <= sorted[i].time {
        assert sorted[i] in multiset(sorted);
        assert sorted[i] in s[1..];
        var j :| 0 <= j < |s[1..]| && s[1..][j] == sorted[i];
        assert TimeOf(s[0]) <= TimeOf(s[j + 1]);
      }
      InsertKeepsTimes(s[0], sorted);
    }
  }

  /** What a search finds, on any firmware: what matches, as often as its minor is listed, in that order. */
  lemma FoundSpelled(log: seq<Event>, minors: seq<nat>, from: int, to: int)
    ensures InFoundOrder(EventsFound(log, minors, from, to))
    ensures multiset(EventsFound(log, minors, from, to)) == multiset(Matching(log, minors, from, to))
  {
    var all := Gathered(log, minors, from, to);
    hide Gathered, Matching, SortBy;
    GatheredMultiset(log, minors, from, to);
    SortMultiset(all, TimeOf);
    SortMultiset(SortBy(all, TimeOf), SerialOrZero);
    SortOrdered(all, TimeOf);
    StableByTime(SortBy(all, TimeOf));
  }

  /** An event without a serial sorts before all but one numbered zero. */
  lemma FoundOrderTells(a: Event, b: Event)
    requires FoundOrder(a, b)
    ensures a.serial == b.serial ==> a.time <= b.time
    ensures a.serial.Some? && b.serial.Some? ==> a.serial.value <= b.serial.value
    ensures a.serial.Some? && b.serial == None ==> a.serial.value == 0 && a.time <= b.time
    ensures a.serial == None && b.serial == Some(0) ==> a.time <= b.time
  {
  }

  /** Once, then, when no minor is repeated. */
  lemma {:induction false} MatchingOnce(log: seq<Event>, minors: seq<nat>, from: int, to: int)
    requires Numbered(log) && Distinct(minors)
    ensures Numbered(Matching(log, minors, from, to))
  {
    if log != [] {
      var last := log[|log| - 1];
      var before := Matching(log[..|log| - 1], minors, from, to);
      MatchingOnce(log[..|log| - 1], minors, from, to);
      MatchingMembers(log[..|log| - 1], minors, from, to);
      AskedOnce(minors, last.minor);
      forall i | 0 <= i < |before| ensures before[i].serial.Some? && before[i].serial.value < last.serial.value {
        assert before[i] in log[..|log| - 1];
      }
      hide Asked;
    }
  }

  // ---------------------------------------------------------------- when a search completes

  function SearchOf(log: seq<Event>, minor: nat, from: int, to: int, cap: nat, limits: map<nat, nat>): Terminal<Event> {
    Terminal(SortBy(Matching(log, [minor], from, to), TimeOf), cap, limits)
  }

  /** The page size left by the searches of the first `n` terminals: a lowered one stays lowered. */
  function SizeLeft(searches: seq<Terminal<Event>>, n: nat, size: nat, pages: nat): nat
    requires n <= |searches|
  {
    if n == 0 then size else SizeAfter(searches[n - 1], 0, SizeLeft(searches, n - 1, size, pages), pages)
  }

  function Searches(log: seq<Event>, minors: seq<nat>, from: int, to: int, cap: nat,
                    limits: map<nat, nat>): (t: seq<Terminal<Event>>)
    ensures |t| == |minors|
    ensures forall i :: 0 <= i < |minors| ==> t[i] == SearchOf(log, minors[i], from, to, cap, limits)
  {
    seq(|minors|, i requires 0 <= i < |minors| => SearchOf(log, minors[i], from, to, cap, limits))
  }

  /** Search `n` has no more events than its pages reach, at the page size the ones before it left. */
  predicate Fits(searches: seq<Terminal<Event>>, n: nat, size: nat, pages: nat)
    requires n < |searches|
  {
    |searches[n].items| <= Reach(searches[n], 0, SizeLeft(searches, n, size, pages), pages)
  }

  predicate AllFit(log: seq<Event>, minors: seq<nat>, from: int, to: int, cap: nat, limits: map<nat, nat>, size: nat,
                   pages: nat) {
    var searches := Searches(log, minors, from, to, cap, limits);
    forall n :: 0 <= n < |searches| ==> Fits(searches, n, size, pages)
  }

  lemma {:induction false} SizeKept<T>(t: Terminal<T>, position: nat, size: nat, pages: nat)
    requires position <= |t.items|
    ensures size >= 1 ==> SizeAfter(t, position, size, pages) >= Min(size, SMALL_PAGE_SIZE)
    decreases pages
  {
    if pages > 0 && SizeAt(t, position, size).Some? {
      var next := SizeAt(t, position, size).value;
      var page := PageOf(t, position, next);
      if page.status == More && page.items != [] {
        SizeKept(t, position + |page.items|, next, pages - 1);
      }
    }
  }

  lemma {:induction false} SizeLeftKept(searches: seq<Terminal<Event>>, n: nat, size: nat, pages: nat)
    requires n <= |searches|
    ensures size >= 1 ==> SizeLeft(searches, n, size, pages) >= Min(size, SMALL_PAGE_SIZE)
  {
    if n > 0 {
      SizeLeftKept(searches, n - 1, size, pages);
      SizeKept(searches[n - 1], 0, SizeLeft(searches, n - 1, size, pages), pages);
    }
  }

  /** Enough for every search to complete, whatever is refused: no minor has more than the small pages hold. */
  lemma SmallPagesSuffice(log: seq<Event>, minors: seq<nat>, from: int, to: int, cap: nat, limits: map<nat, nat>,
                          size: nat, pages: nat)
    requires size >= 1 && cap >= 1 && forall p :: p in limits ==> limits[p] >= SMALL_PAGE_SIZE
    requires var most := pages * Min(Min(size, SMALL_PAGE_SIZE), cap);
             forall i :: 0 <= i < |minors| ==> |SearchOf(log, minors[i], from, to, cap, limits).items| <= most
    ensures AllFit(log, minors, from, to, cap, limits, size, pages)
  {
    var searches := Searches(log, minors, from, to, cap, limits);
    forall n | 0 <= n < |searches| ensures Fits(searches, n, size, pages) {
      var left := SizeLeft(searches, n, size, pages);
      SizeLeftKept(searches, n, size, pages);
      ReachAtLeast(searches[n], 0, left, pages);
      assert searches[n] == SearchOf(log, minors[n], from, to, cap, limits);
      MonotoneProduct(pages, Min(Min(size, SMALL_PAGE_SIZE), cap), Min(Min(left, SMALL_PAGE_SIZE), cap));
    }
  }

  lemma OneSearch<T>(t: Terminal<T>, size: nat, pages: nat)
    requires TakesSmallPages(t) && size >= 1 && pages >= 1
    ensures Listing(t, 0, size, pages) == if |t.items| <= Reach(t, 0, size, pages) then Done(t.items) else Unfinished
    ensures SizeAfter(t, 0, size, pages) >= 1
  {
    PaginationExact(t, size, pages);
    SizeKept(t, 0, size, pages);
  }

  lemma MonotoneProduct(n: nat, a: int, b: int)
    requires a <= b
    ensures n * a <= n * b
  {
  }

  // ---------------------------------------------------------------- one sync

  function FloorToSecond(t: int): int {
    t / 1000 * 1000
  }

  /** The bounds travel as wall-clock text with whole seconds. */
  function WindowFrom(cfg: Config, c: Option<Cursor>, now: int): int {
    var earliest := now - cfg.lookbackMs;
    FloorToSecond(if c.Some? && now >= c.value.time then Max(earliest, c.value.time - cfg.overlapMs) else earliest)
  }

  function WindowTo(now: int): int {
    FloorToSecond(now + SEARCH_END_MARGIN_MS)
  }

  /**
   What a sync looks for, with the numbers configured: whole seconds that reach from the earliest
   instant of the lookback, and from the overlap before the newest event seen when the clock is not
   behind that one, to an hour from now.
   */
  predicate InReach(cfg: Config, c: Option<Cursor>, now: int, t: int) {
    && now - cfg.lookbackMs < t / 1000 * 1000 + 1000
    && (c.Some? && c.value.time <= now ==> c.value.time - cfg.overlapMs < t / 1000 * 1000 + 1000)
    && InTime(now, t)
  }

  predicate InTime(now: int, t: int) {
    (t + 999) / 1000 * 1000 <= now + 3_600_000
  }

  /** The window of the search is that, and nothing else. */
  lemma ReachIsWindow(cfg: Config, c: Option<Cursor>, now: int, e: Event)
    ensures InWindow(e, WindowFrom(cfg, c, now), WindowTo(now)) <==> InReach(cfg, c, now, e.time)
    ensures e.time <= WindowTo(now) <==> InTime(now, e.time)
  {
  }

  /**
   Its bounds: less than a second below the later of the two starts, or below the one there is, and
   less than a second below an hour from now.
   */
  lemma WindowBounds(cfg: Config, c: Option<Cursor>, now: int)
    ensures var earliest, from := now - cfg.lookbackMs, WindowFrom(cfg, c, now);
            && (c == None || now < c.value.time ==> earliest - 1000 < from <= earliest)
            && (c.Some? && c.value.time <= now ==>
                  var overlapping := c.value.time - cfg.overlapMs;
                  && from <= Max(earliest, overlapping)
                  && earliest - 1000 < from && overlapping - 1000 < from)
    ensures now + 3_600_000 - 1000 < WindowTo(now) <= now + 3_600_000
    ensures WindowFrom(cfg, c, now) % 1000 == 0 == WindowTo(now) % 1000
  {
  }

  predicate Restarted(events: seq<Event>, c: Cursor) {
    exists i :: 0 <= i < |events| && SerialOrZero(events[i]) < c.serial && events[i].time > c.time
  }

  predicate Unnumbered(events: seq<Event>) {
    exists i :: 0 <= i < |events| && events[i].serial.None?
  }

  function Above(events: seq<Event>, serial: nat): seq<Event> {
    if events == [] then []
    else if SerialOrZero(events[0]) > serial then [events[0]] + Above(events[1..], serial)
    else Above(events[1..], serial)
  }

  datatype Selection = Selection(selected: seq<Event>, restarted: bool)

  function SelectNew(events: seq<Event>, c: Cursor): Selection {
    if Unnumbered(events) then Selection(events, false)
    else if Restarted(events, c) then Selection(events, true)
    else Selection(Above(events, c.serial), false)
  }

  function MaxSerial(events: seq<Event>): nat
    requires events != []
  {
    var first := SerialOrZero(events[0]);
    if |events| == 1 then first else Max(first, MaxSerial(events[1..]))
  }

  function MaxTime(floor: nat, events: seq<Event>): nat {
    if events == [] then floor else Max(events[0].time, MaxTime(floor, events[1..]))
  }

  function Advance(c: Option<Cursor>, s: Selection): Option<Cursor> {
    if s.selected == [] then c
    else
      var serial := MaxSerial(s.selected);
      var time := MaxTime(if c.Some? then c.value.time else 0, s.selected);
      Some(Cursor(if c.Some? && !s.restarted then Max(c.value.serial, serial) else serial, time))
  }

  datatype SyncResult = SyncResult(logs: seq<Event>, cursor: Option<Cursor>)

  function SyncOnce(cfg: Config, log: seq<Event>, c: Option<Cursor>, now: int): SyncResult {
    var events := EventsFound(log, cfg.minors, WindowFrom(cfg, c, now), WindowTo(now));
    var s := if c.Some? then SelectNew(events, c.value) else Selection(events, false);
    SyncResult(s.selected, Advance(c, s))
  }

  lemma {:induction false} AboveMembers(events: seq<Event>, serial: nat)
    ensures forall e :: e in Above(events, serial) <==> e in events && SerialOrZero(e) > serial
  {
    if events != [] {
      AboveMembers(events[1..], serial);
      assert events == [events[0]] + events[1..];
    }
  }

  lemma {:induction false} MaxSerialIsMax(events: seq<Event>)
    requires events != []
    ensures forall e :: e in events ==> SerialOrZero(e) <= MaxSerial(events)
    ensures exists e :: e in events && SerialOrZero(e) == MaxSerial(events)
  {
    assert events == [events[0]] + events[1..];
    assert events[0] in events;
    if |events| > 1 {
      MaxSerialIsMax(events[1..]);
      var m :| m in events[1..] && SerialOrZero(m) == MaxSerial(events[1..]);
      assert m in events;
    }
  }

  lemma {:induction false} MaxTimeIsMax(floor: nat, events: seq<Event>)
    ensures forall e :: e in events ==> e.time <= MaxTime(floor, events)
    ensures MaxTime(floor, events) >= floor
    ensures MaxTime(floor, events) == floor || exists e :: e in events && e.time == MaxTime(floor, events)
  {
    if events != [] {
      MaxTimeIsMax(floor, events[1..]);
      assert events == [events[0]] + events[1..];
    }
  }

  // ---------------------------------------------------------------- the cursor over a whole run

  predicate Wanted(cfg: Config, e: Event) {
    e.minor in cfg.minors
  }

  predicate AnyWanted(cfg: Config, log: seq<Event>) {
    exists i :: 0 <= i < |log| && Wanted(cfg, log[i])
  }

  /** What a cursor stands for, once the memory it was read from held a punch. */
  predicate Tracks(cfg: Config, log: seq<Event>, c: Cursor) {
    && (exists i :: 0 <= i < |log| && log[i].serial == Some(c.serial))
    && (forall i :: 0 <= i < |log| && Wanted(cfg, log[i]) ==> log[i].time <= c.time)
  }

  /** `log[..seen]` is what earlier syncs of this same memory already faced. */
  predicate CursorInv(cfg: Config, log: seq<Event>, seen: nat, c: Option<Cursor>)
    requires seen <= |log|
  {
    c.Some? && AnyWanted(cfg, log[..seen]) ==> Tracks(cfg, log[..seen], c.value)
  }

  /**
   What the window has to offer for a sync to be exact: every punch added since the last sync is
   stamped inside it (for the first sync, none after its end), and when the memory was cleared
   since, some new punch shows the restart.
   */
  predicate Timely(cfg: Config, log: seq<Event>, seen: nat, c: Option<Cursor>, now: int)
    requires seen <= |log|
  {
    if c == None then forall i :: 0 <= i < |log| && Wanted(cfg, log[i]) ==> InTime(now, log[i].time)
    else
      && (forall i :: seen <= i < |log| && Wanted(cfg, log[i]) ==>
                        InReach(cfg, c, now, log[i].time))
      && (AnyWanted(cfg, log) && !AnyWanted(cfg, log[..seen]) ==> ShowsRestart(cfg, log, c.value))
  }

  predicate ShowsRestart(cfg: Config, log: seq<Event>, c: Cursor) {
    exists i :: 0 <= i < |log| && Wanted(cfg, log[i]) && SerialOrZero(log[i]) < c.serial && log[i].time > c.time
  }

  /** A sync on a terminal that numbers its events: what it returns, by membership. */
  lemma SyncMembers(cfg: Config, log: seq<Event>, c: Option<Cursor>, now: int)
    requires Numbered(log)
    ensures var from, to := WindowFrom(cfg, c, now), WindowTo(now);
            var r := SyncOnce(cfg, log, c, now);
            && (forall e :: e in r.logs ==> e in log && Wanted(cfg, e) && InWindow(e, from, to))
            && (c == None || Restarted(Matching(log, cfg.minors, from, to), c.value) ==>
                  r.logs == Matching(log, cfg.minors, from, to))
            && (c.Some? && !Restarted(Matching(log, cfg.minors, from, to), c.value) ==>
                  r.logs == Above(Matching(log, cfg.minors, from, to), c.value.serial))
  {
    var from, to := WindowFrom(cfg, c, now), WindowTo(now);
    var events := Matching(log, cfg.minors, from, to);
    SearchIsMatching(log, cfg.minors, from, to);
    MatchingMembers(log, cfg.minors, from, to);
    MatchingBySerial(log, cfg.minors, from, to);
    if c.Some? {
      AboveMembers(events, c.value.serial);
    }
  }

  /** No restart is seen where there was none. */
  lemma NotRestarted(cfg: Config, log: seq<Event>, seen: nat, c: Cursor, now: int)
    requires Numbered(log) && seen <= |log| && Tracks(cfg, log[..seen], c)
    ensures !Restarted(Matching(log, cfg.minors, WindowFrom(cfg, Some(c), now), WindowTo(now)), c)
    ensures forall i :: seen <= i < |log| ==> SerialOrZero(log[i]) > c.serial
  {
    var events := Matching(log, cfg.minors, WindowFrom(cfg, Some(c), now), WindowTo(now));
    MatchingMembers(log, cfg.minors, WindowFrom(cfg, Some(c), now), WindowTo(now));
    var k :| 0 <= k < seen && log[k].serial == Some(c.serial);
    forall i | 0 <= i < |events| ensures SerialOrZero(events[i]) >= c.serial || events[i].time <= c.time {
      assert events[i] in log && Wanted(cfg, events[i]);
      var j :| 0 <= j < |log| && log[j] == events[i];
      if j < seen {
        assert log[..seen][j] == log[j];
      }
    }
  }

  lemma NoneSeen(cfg: Config, log: seq<Event>, seen: nat)
    requires seen <= |log| && !AnyWanted(cfg, log[..seen])
    ensures forall i :: 0 <= i < seen ==> !Wanted(cfg, log[i])
  {
    forall i | 0 <= i < seen ensures !Wanted(cfg, log[i]) {
      assert log[..seen][i] == log[i];
    }
  }

  lemma RestartSeen(cfg: Config, log: seq<Event>, seen: nat, c: Cursor, now: int)
    requires seen <= |log| && Timely(cfg, log, seen, Some(c), now)
    requires AnyWanted(cfg, log) && !AnyWanted(cfg, log[..seen])
    ensures Restarted(Matching(log, cfg.minors, WindowFrom(cfg, Some(c), now), WindowTo(now)), c)
  {
    var events := Matching(log, cfg.minors, WindowFrom(cfg, Some(c), now), WindowTo(now));
    MatchingMembers(log, cfg.minors, WindowFrom(cfg, Some(c), now), WindowTo(now));
    var i :| 0 <= i < |log| && Wanted(cfg, log[i]) && SerialOrZero(log[i]) < c.serial && log[i].time > c.time;
    NoneSeen(cfg, log, seen);
    ReachIsWindow(cfg, Some(c), now, log[i]);
    assert log[i] in events;
  }

  /** Every new punch in the window is returned, and none that an earlier sync may have returned. */
  lemma SyncReturnsNew(cfg: Config, log: seq<Event>, seen: nat, c: Option<Cursor>, now: int)
    requires Numbered(log) && seen <= |log|
    requires CursorInv(cfg, log, seen, c) && Timely(cfg, log, seen, c, now)
    ensures var r := SyncOnce(cfg, log, c, now);
            && (forall i :: seen <= i < |log| && Wanted(cfg, log[i]) && InReach(cfg, c, now, log[i].time) ==>
                              log[i] in r.logs)
            && (forall e :: e in r.logs ==> InReach(cfg, c, now, e.time))
            && (c.Some? && AnyWanted(cfg, log[..seen]) ==> forall e :: e in r.logs ==> SerialOrZero(e) > c.value.serial)
  {
    var from, to := WindowFrom(cfg, c, now), WindowTo(now);
    SyncMembers(cfg, log, c, now);
    MatchingMembers(log, cfg.minors, from, to);
    forall e: Event ensures InWindow(e, from, to) <==> InReach(cfg, c, now, e.time) {
      ReachIsWindow(cfg, c, now, e);
    }
    hide InWindow, InReach, WindowFrom, WindowTo, SyncOnce, InTime;
    if c.Some? {
      AboveMembers(Matching(log, cfg.minors, from, to), c.value.serial);
      if AnyWanted(cfg, log[..seen]) {
        NotRestarted(cfg, log, seen, c.value, now);
      } else if AnyWanted(cfg, log) {
        RestartSeen(cfg, log, seen, c.value, now);
      }
    }
  }

  lemma AdvanceBounds(c: Option<Cursor>, s: Selection)
    requires s.selected != []
    ensures var next := Advance(c, s);
            && next.Some?
            && (forall e :: e in s.selected ==> SerialOrZero(e) <= next.value.serial && e.time <= next.value.time)
            && ((exists e :: e in s.selected && SerialOrZero(e) == next.value.serial)
                || (c.Some? && next.value.serial == c.value.serial))
            && (s.restarted || c == None ==> exists e :: e in s.selected && SerialOrZero(e) == next.value.serial)
            && (c.Some? ==> next.value.time >= c.value.time && (!s.restarted ==> next.value.serial >= c.value.serial))
            && (next.value.time == (if c.Some? then c.value.time else 0)
                || exists e :: e in s.selected && e.time == next.value.time)
  {
    MaxSerialIsMax(s.selected);
    MaxTimeIsMax(if c.Some? then c.value.time else 0, s.selected);
  }

  lemma {:induction false} AboveCounts(events: seq<Event>, serial: nat, e: Event)
    ensures multiset(Above(events, serial))[e] == if SerialOrZero(e) > serial then multiset(events)[e] else 0
  {
    if events != [] {
      AboveCounts(events[1..], serial, e);
      assert events == [events[0]] + events[1..];
    }
  }

  lemma {:induction false} AboveOrder(events: seq<Event>, serial: nat)
    requires InFoundOrder(events)
    ensures InFoundOrder(Above(events, serial))
  {
    hide FoundOrder, SerialOrZero;
    if events != [] {
      var rest := Above(events[1..], serial);
      forall i, j | 0 <= i < j < |events[1..]| ensures FoundOrder(events[1..][i], events[1..][j]) {
        assert FoundOrder(events[i + 1], events[j + 1]);
      }
      AboveOrder(events[1..], serial);
      AboveMembers(events[1..], serial);
      forall i | 0 <= i < |rest| ensures FoundOrder(events[0], rest[i]) {
        assert rest[i] in events[1..];
        var k :| 0 <= k < |events[1..]| && events[1..][k] == rest[i];
        assert FoundOrder(events[0], events[k + 1]);
      }
    }
  }

  /** Some event found has no serial. */
  predicate SerialMissing(events: seq<Event>) {
    exists e :: e in events && e.serial == None
  }

  /** All have one, and one of them, later than anything downloaded, is below the cursor's. */
  predicate CounterRestarted(events: seq<Event>, c: Cursor) {
    !SerialMissing(events) && exists e :: e in events && e.serial.Some? && e.serial.value < c.serial && e.time > c.time
  }

  /** Where a sync leaves its cursor: at the highest serial and the latest time met; a restart forgets the serial. */
  predicate CursorMoved(c: Cursor, r: SyncResult, restarted: bool) {
    if r.logs == [] then r.cursor == Some(c)
    else
      && r.cursor.Some?
      && (var next := r.cursor.value;
          && (forall e :: e in r.logs ==> SerialOrZero(e) <= next.serial && e.time <= next.time)
          && (next.time == c.time || exists e :: e in r.logs && e.time == next.time)
          && next.time >= c.time
          && ((!restarted && next.serial == c.serial) || exists e :: e in r.logs && SerialOrZero(e) == next.serial)
          && (!restarted ==> next.serial >= c.serial))
  }

  lemma SelectedTell(events: seq<Event>, c: Cursor)
    ensures var s := SelectNew(events, c);
            && s.restarted == CounterRestarted(events, c)
            && s.selected == (if SerialMissing(events) || s.restarted then events else Above(events, c.serial))
  {
    assert Unnumbered(events) <==> SerialMissing(events);
    hide SerialMissing, Unnumbered;
    if !Unnumbered(events) {
      AllNumbered(events);
      assert Restarted(events, c) <==> CounterRestarted(events, c);
    }
  }

  lemma AllNumbered(events: seq<Event>)
    requires !Unnumbered(events)
    ensures forall i :: 0 <= i < |events| ==> events[i].serial.Some?
  {
  }

  lemma AboveTells(events: seq<Event>, serial: nat, e: Event)
    ensures multiset(Above(events, serial))[e] == if e.serial.Some? && e.serial.value > serial then multiset(events)[e]
                                                  else 0
  {
    AboveCounts(events, serial, e);
  }

  lemma CursorTells(c: Cursor, s: Selection)
    ensures CursorMoved(c, SyncResult(s.selected, Advance(Some(c), s)), s.restarted)
  {
    if s.selected != [] {
      AdvanceBounds(Some(c), s);
    }
  }

  /**
   A sync on any firmware. Without serials, or after a restart of their counter, it returns all it
   found, and otherwise what lies above the cursor, each as often and in the order it was found.
   */
  lemma SyncOnAnyFirmware(cfg: Config, log: seq<Event>, c: Cursor, now: int)
    ensures var events := EventsFound(log, cfg.minors, WindowFrom(cfg, Some(c), now), WindowTo(now));
            var r := SyncOnce(cfg, log, Some(c), now);
            && InFoundOrder(r.logs)
            && (if SerialMissing(events) || CounterRestarted(events, c) then r.logs == events
                else forall e: Event ::
                       multiset(r.logs)[e] == if e.serial.Some? && e.serial.value > c.serial then multiset(events)[e]
                       else 0)
            && CursorMoved(c, r, CounterRestarted(events, c))
  {
    var events := EventsFound(log, cfg.minors, WindowFrom(cfg, Some(c), now), WindowTo(now));
    FoundSpelled(log, cfg.minors, WindowFrom(cfg, Some(c), now), WindowTo(now));
    hide EventsFound, InFoundOrder, WindowFrom, WindowTo, SerialMissing, CounterRestarted, CursorMoved, SelectNew,
      Advance, Above;
    SelectedTell(events, c);
    CursorTells(c, SelectNew(events, c));
    if !SerialMissing(events) && !CounterRestarted(events, c) {
      AboveOrder(events, c.serial);
      forall e: Event ensures multiset(Above(events, c.serial))[e]
                           == if e.serial.Some? && e.serial.value > c.serial then multiset(events)[e] else 0 {
        AboveTells(events, c.serial, e);
      }
    }
  }

  lemma SerialFound(log: seq<Event>, sub: seq<Event>, serial: nat)
    requires Numbered(log) && forall e :: e in sub ==> e in log
    requires exists e :: e in sub && SerialOrZero(e) == serial
    ensures exists i :: 0 <= i < |log| && log[i].serial == Some(serial)
  {
    var e :| e in sub && SerialOrZero(e) == serial;
    var i :| 0 <= i < |log| && log[i] == e;
  }

  /** The first sync: its cursor tracks everything the memory holds. */
  lemma FirstCursor(cfg: Config, log: seq<Event>, now: int)
    requires Numbered(log) && Timely(cfg, log, 0, None, now)
    ensures var r := SyncOnce(cfg, log, None, now); r.cursor.Some? ==> Tracks(cfg, log, r.cursor.value)
  {
    var from, to := WindowFrom(cfg, None, now), WindowTo(now);
    var r := SyncOnce(cfg, log, None, now);
    SyncMembers(cfg, log, None, now);
    MatchingMembers(log, cfg.minors, from, to);
    hide SyncOnce, Timely, Advance, Numbered;
    FirstIs(cfg, log, now);
    if r.logs != [] {
      AdvanceBounds(None, Selection(r.logs, false));
      SerialFound(log, r.logs, r.cursor.value.serial);
      assert r.logs[0] in r.logs;
    }
  }

  lemma FirstIs(cfg: Config, log: seq<Event>, now: int)
    ensures var r := SyncOnce(cfg, log, None, now);
            && r.cursor == Advance(None, Selection(r.logs, false))
            && (r.logs == [] ==> r.cursor == None)
    ensures Timely(cfg, log, 0, None, now) ==> forall i :: 0 <= i < |log| && Wanted(cfg, log[i]) ==>
                                                             log[i].time <= WindowTo(now)
  {
    forall i | 0 <= i < |log| ensures InTime(now, log[i].time) <==> log[i].time <= WindowTo(now) {
      ReachIsWindow(cfg, None, now, log[i]);
    }
    hide InTime, WindowTo;
  }

  lemma LaterIs(cfg: Config, log: seq<Event>, seen: nat, c: Cursor, now: int)
    requires Numbered(log) && seen <= |log| && Timely(cfg, log, seen, Some(c), now)
    ensures var r := SyncOnce(cfg, log, Some(c), now);
            var restarted := Restarted(Matching(log, cfg.minors, WindowFrom(cfg, Some(c), now), WindowTo(now)), c);
            && r.cursor == Advance(Some(c), Selection(r.logs, restarted))
            && (r.logs == [] ==> r.cursor == Some(c))
    ensures forall i :: seen <= i < |log| && Wanted(cfg, log[i]) ==>
                          InWindow(log[i], WindowFrom(cfg, Some(c), now), WindowTo(now))
  {
    var from, to := WindowFrom(cfg, Some(c), now), WindowTo(now);
    SearchIsMatching(log, cfg.minors, from, to);
    MatchingBySerial(log, cfg.minors, from, to);
    SelectNumbered(Matching(log, cfg.minors, from, to), c);
    forall i | 0 <= i < |log| ensures InReach(cfg, Some(c), now, log[i].time) <==> InWindow(log[i], from, to) {
      ReachIsWindow(cfg, Some(c), now, log[i]);
    }
    hide Matching, EventsFound, SelectNew, Restarted, Numbered, InWindow, InReach, WindowFrom, WindowTo;
  }

  /** Among events that all have a serial: everything on a restart, or what is above the cursor. */
  lemma SelectNumbered(events: seq<Event>, c: Cursor)
    requires BySerial(events)
    ensures var s := SelectNew(events, c);
            && s.restarted == Restarted(events, c)
            && (s.restarted ==> s.selected == events)
            && (!s.restarted ==> s.selected == Above(events, c.serial))
  {
    hide Above, Restarted;
    forall i | 0 <= i < |events| ensures events[i].serial.Some? {
      assert InSerialOrder(events[i], events[i]);
    }
  }

  /** A later sync of the same memory moves the cursor on to everything it holds by now. */
  lemma NextCursor(cfg: Config, log: seq<Event>, seen: nat, c: Cursor, now: int)
    requires Numbered(log) && seen <= |log|
    requires AnyWanted(cfg, log[..seen]) && Tracks(cfg, log[..seen], c)
    requires Timely(cfg, log, seen, Some(c), now)
    ensures var r := SyncOnce(cfg, log, Some(c), now);
            r.cursor.Some? && Tracks(cfg, log, r.cursor.value) && r.cursor.value.serial >= c.serial
  {
    var r := SyncOnce(cfg, log, Some(c), now);
    LaterIs(cfg, log, seen, c, now);
    NotRestarted(cfg, log, seen, c, now);
    SyncReturnsNew(cfg, log, seen, Some(c), now);
    SyncMembers(cfg, log, Some(c), now);
    hide SyncOnce, Timely, Advance, Restarted;
    forall i | 0 <= i < seen ensures log[..seen][i] == log[i] {}
    if r.logs != [] {
      AdvanceBounds(Some(c), Selection(r.logs, false));
      if exists e :: e in r.logs && SerialOrZero(e) == r.cursor.value.serial {
        SerialFound(log, r.logs, r.cursor.value.serial);
      }
    }
    TracksAll(cfg, log, seen, c, r.cursor.value, r.logs);
  }

  lemma TracksAll(cfg: Config, log: seq<Event>, seen: nat, c: Cursor, next: Cursor, logs: seq<Event>)
    requires seen <= |log| && Tracks(cfg, log[..seen], c) && next.time >= c.time
    requires next.serial == c.serial || exists i :: 0 <= i < |log| && log[i].serial == Some(next.serial)
    requires forall i :: seen <= i < |log| && Wanted(cfg, log[i]) ==> log[i] in logs
    requires forall e :: e in logs ==> e.time <= next.time
    ensures Tracks(cfg, log, next)
  {
    forall i | 0 <= i < |log| && Wanted(cfg, log[i]) ensures log[i].time <= next.time {
      if i < seen {
        assert log[..seen][i] == log[i];
      }
    }
    var k :| 0 <= k < seen && log[..seen][k].serial == Some(c.serial);
    assert log[k].serial == Some(c.serial);
  }

  /** After a clear, every punch wanted is returned. */
  lemma NewReturned(cfg: Config, log: seq<Event>, seen: nat, c: Cursor, now: int)
    requires Numbered(log) && seen <= |log|
    requires AnyWanted(cfg, log) && !AnyWanted(cfg, log[..seen])
    requires Timely(cfg, log, seen, Some(c), now)
    ensures var logs := SyncOnce(cfg, log, Some(c), now).logs;
            logs != [] && forall i :: 0 <= i < |log| && Wanted(cfg, log[i]) ==> log[i] in logs
  {
    NoneSeen(cfg, log, seen);
    SyncReturnsNew(cfg, log, seen, Some(c), now);
    LaterIs(cfg, log, seen, c, now);
    var i :| 0 <= i < |log| && Wanted(cfg, log[i]);
    hide SyncOnce, Timely, Numbered, InWindow, WindowFrom, WindowTo, Restarted;
    assert log[i] in SyncOnce(cfg, log, Some(c), now).logs;
  }

  /** The first sync that meets a cleared memory returns all of it and starts over. */
  lemma RestartCursor(cfg: Config, log: seq<Event>, seen: nat, c: Cursor, now: int)
    requires Numbered(log) && seen <= |log|
    requires AnyWanted(cfg, log) && !AnyWanted(cfg, log[..seen])
    requires Timely(cfg, log, seen, Some(c), now)
    ensures var r := SyncOnce(cfg, log, Some(c), now); r.cursor.Some? && Tracks(cfg, log, r.cursor.value)
  {
    var r := SyncOnce(cfg, log, Some(c), now);
    LaterIs(cfg, log, seen, c, now);
    RestartSeen(cfg, log, seen, c, now);
    NewReturned(cfg, log, seen, c, now);
    SyncMembers(cfg, log, Some(c), now);
    hide SyncOnce, Timely, Advance, Restarted, Numbered, InWindow, WindowFrom, WindowTo, AnyWanted;
    AdvanceBounds(Some(c), Selection(r.logs, true));
    SerialFound(log, r.logs, r.cursor.value.serial);
  }

  /** The invariant of the cursor, one sync further. */
  lemma SyncAdvances(cfg: Config, log: seq<Event>, seen: nat, c: Option<Cursor>, now: int)
    requires Numbered(log) && seen <= |log|
    requires CursorInv(cfg, log, seen, c) && Timely(cfg, log, seen, c, now)
    ensures var r := SyncOnce(cfg, log, c, now);
            && (r.cursor.Some? && AnyWanted(cfg, log) ==> Tracks(cfg, log, r.cursor.value))
            && (r.logs != [] || c.Some? ==> r.cursor.Some?)
            && (forall e :: e in r.logs ==> SerialOrZero(e) <= r.cursor.value.serial)
            && (c.Some? && AnyWanted(cfg, log[..seen]) ==> r.cursor.value.serial >= c.value.serial)
  {
    var r := SyncOnce(cfg, log, c, now);
    if c == None {
      FirstCursor(cfg, log, now);
      FirstIs(cfg, log, now);
      if r.logs != [] {
        AdvanceBounds(None, Selection(r.logs, false));
      }
    } else {
      LaterIs(cfg, log, seen, c.value, now);
      if AnyWanted(cfg, log[..seen]) {
        NextCursor(cfg, log, seen, c.value, now);
      } else if AnyWanted(cfg, log) {
        RestartCursor(cfg, log, seen, c.value, now);
      }
      if r.logs != [] {
        var events := Matching(log, cfg.minors, WindowFrom(cfg, c, now), WindowTo(now));
        AdvanceBounds(c, Selection(r.logs, Restarted(events, c.value)));
      }
    }
  }

  /**
   One sync whose cursor was persisted: which memory it met (a cleared terminal starts the next
   one), how many events that held, and the device clock. A sync that fails changes no cursor.
   */
  datatype SyncAt = SyncAt(memory: nat, count: nat, now: int)

  predicate IsRun(memories: seq<seq<Event>>, syncs: seq<SyncAt>) {
    && (forall m :: 0 <= m < |memories| ==> Numbered(memories[m]))
    && (forall k :: 0 <= k < |syncs| ==> syncs[k].memory < |memories| && syncs[k].count <= |memories[syncs[k].memory]|)
    && (forall k :: 0 < k < |syncs| ==> FollowsOn(syncs, k))
  }

  /** The terminal still has that memory with at least as many events, or was cleared since. */
  predicate FollowsOn(syncs: seq<SyncAt>, k: nat)
    requires 0 < k < |syncs|
  {
    var before, after := syncs[k - 1], syncs[k];
    before.memory < after.memory || (before.memory == after.memory && before.count <= after.count)
  }

  function LogAt(memories: seq<seq<Event>>, syncs: seq<SyncAt>, k: nat): seq<Event>
    requires IsRun(memories, syncs) && k < |syncs|
  {
    memories[syncs[k].memory][..syncs[k].count]
  }

  function CursorBefore(cfg: Config, memories: seq<seq<Event>>, syncs: seq<SyncAt>, k: nat): Option<Cursor>
    requires IsRun(memories, syncs) && k <= |syncs|
  {
    if k == 0 then None
    else SyncOnce(cfg, LogAt(memories, syncs, k - 1), CursorBefore(cfg, memories, syncs, k - 1),
                  syncs[k - 1].now).cursor
  }

  function Returned(cfg: Config, memories: seq<seq<Event>>, syncs: seq<SyncAt>, k: nat): seq<Event>
    requires IsRun(memories, syncs) && k < |syncs|
  {
    SyncOnce(cfg, LogAt(memories, syncs, k), CursorBefore(cfg, memories, syncs, k), syncs[k].now).logs
  }

  /** How many events of the memory sync `k` meets an earlier sync met too. */
  function Seen(syncs: seq<SyncAt>, k: nat): nat
    requires k < |syncs|
  {
    if k > 0 && syncs[k - 1].memory == syncs[k].memory then syncs[k - 1].count else 0
  }

  lemma SeenFits(memories: seq<seq<Event>>, syncs: seq<SyncAt>, k: nat)
    requires IsRun(memories, syncs) && k < |syncs|
    ensures Seen(syncs, k) <= |LogAt(memories, syncs, k)|
    ensures k > 0 && syncs[k - 1].memory == syncs[k].memory ==>
              LogAt(memories, syncs, k)[..Seen(syncs, k)] == LogAt(memories, syncs, k - 1)
    ensures Numbered(LogAt(memories, syncs, k))
  {
    if k > 0 && syncs[k - 1].memory == syncs[k].memory {
      assert FollowsOn(syncs, k);
    }
  }

  predicate TimelyAt(cfg: Config, memories: seq<seq<Event>>, syncs: seq<SyncAt>, k: nat)
    requires IsRun(memories, syncs) && k < |syncs|
  {
    && Seen(syncs, k) <= |LogAt(memories, syncs, k)|
    && Timely(cfg, LogAt(memories, syncs, k), Seen(syncs, k), CursorBefore(cfg, memories, syncs, k), syncs[k].now)
  }

  predicate AllTimely(cfg: Config, memories: seq<seq<Event>>, syncs: seq<SyncAt>)
    requires IsRun(memories, syncs)
  {
    forall k :: 0 <= k < |syncs| ==> TimelyAt(cfg, memories, syncs, k)
  }

  predicate CursorInvAt(cfg: Config, memories: seq<seq<Event>>, syncs: seq<SyncAt>, k: nat)
    requires IsRun(memories, syncs) && k < |syncs|
  {
    && Seen(syncs, k) <= |LogAt(memories, syncs, k)|
    && CursorInv(cfg, LogAt(memories, syncs, k), Seen(syncs, k), CursorBefore(cfg, memories, syncs, k))
  }

  predicate SeenAny(cfg: Config, memories: seq<seq<Event>>, syncs: seq<SyncAt>, k: nat)
    requires IsRun(memories, syncs) && k < |syncs|
  {
    Seen(syncs, k) <= |LogAt(memories, syncs, k)| && AnyWanted(cfg, LogAt(memories, syncs, k)[..Seen(syncs, k)])
  }

  /** Sync `k` inside a run: what it returns and where it leaves the cursor. */
  lemma AdvancesAt(cfg: Config, memories: seq<seq<Event>>, syncs: seq<SyncAt>, k: nat)
    requires IsRun(memories, syncs) && k < |syncs|
    requires CursorInvAt(cfg, memories, syncs, k) && TimelyAt(cfg, memories, syncs, k)
    ensures var c, next := CursorBefore(cfg, memories, syncs, k), CursorBefore(cfg, memories, syncs, k + 1);
            && (next.Some? && AnyWanted(cfg, LogAt(memories, syncs, k)) ==>
                  Tracks(cfg, LogAt(memories, syncs, k), next.value))
            && (c.Some? ==> next.Some?)
            && (forall e :: e in Returned(cfg, memories, syncs, k) ==>
                              && next.Some? && SerialOrZero(e) <= next.value.serial
                              && AnyWanted(cfg, LogAt(memories, syncs, k)))
            && (c.Some? && SeenAny(cfg, memories, syncs, k) ==>
                  next.value.serial >= c.value.serial
                  && forall e :: e in Returned(cfg, memories, syncs, k) ==> SerialOrZero(e) > c.value.serial)
  {
    SeenFits(memories, syncs, k);
    var log, seen, c := LogAt(memories, syncs, k), Seen(syncs, k), CursorBefore(cfg, memories, syncs, k);
    SyncAdvances(cfg, log, seen, c, syncs[k].now);
    SyncReturnsNew(cfg, log, seen, c, syncs[k].now);
    SyncMembers(cfg, log, c, syncs[k].now);
    hide SyncOnce, Tracks, Timely, Numbered, Wanted, CursorInv;
  }

  lemma {:induction false} CursorInvHolds(cfg: Config, memories: seq<seq<Event>>, syncs: seq<SyncAt>, k: nat)
    requires IsRun(memories, syncs) && AllTimely(cfg, memories, syncs) && k < |syncs|
    ensures CursorInvAt(cfg, memories, syncs, k)
  {
    hide CursorInvAt, CursorBefore, TimelyAt, IsRun, LogAt;
    if k > 0 && syncs[k - 1].memory == syncs[k].memory {
      CursorInvHolds(cfg, memories, syncs, k - 1);
      assert TimelyAt(cfg, memories, syncs, k - 1);
      CursorInvNext(cfg, memories, syncs, k);
    } else {
      CursorInvFresh(cfg, memories, syncs, k);
    }
  }

  lemma CursorInvNext(cfg: Config, memories: seq<seq<Event>>, syncs: seq<SyncAt>, k: nat)
    requires IsRun(memories, syncs) && 0 < k < |syncs| && syncs[k - 1].memory == syncs[k].memory
    requires CursorInvAt(cfg, memories, syncs, k - 1) && TimelyAt(cfg, memories, syncs, k - 1)
    ensures CursorInvAt(cfg, memories, syncs, k)
  {
    SeenFits(memories, syncs, k);
    AdvancesAt(cfg, memories, syncs, k - 1);
    hide TimelyAt, SyncOnce, Tracks, IsRun, AnyWanted, CursorBefore, LogAt, Seen, Returned;
  }

  /** Nothing of a memory was seen before its first sync. */
  lemma CursorInvFresh(cfg: Config, memories: seq<seq<Event>>, syncs: seq<SyncAt>, k: nat)
    requires IsRun(memories, syncs) && k < |syncs| && (k > 0 ==> syncs[k - 1].memory != syncs[k].memory)
    ensures CursorInvAt(cfg, memories, syncs, k)
  {
    assert LogAt(memories, syncs, k)[..Seen(syncs, k)] == [];
    hide CursorBefore, IsRun, Tracks;
  }

  /** From one sync of a memory to the next: it has seen punches once it returned or had seen any. */
  lemma SeenNext(cfg: Config, memories: seq<seq<Event>>, syncs: seq<SyncAt>, k: nat)
    requires IsRun(memories, syncs) && 0 < k < |syncs| && syncs[k - 1].memory == syncs[k].memory
    requires AnyWanted(cfg, LogAt(memories, syncs, k - 1)) || SeenAny(cfg, memories, syncs, k - 1)
    ensures SeenAny(cfg, memories, syncs, k)
  {
    SeenFits(memories, syncs, k);
    if SeenAny(cfg, memories, syncs, k - 1) {
      WantedGrows(cfg, LogAt(memories, syncs, k - 1), Seen(syncs, k - 1));
    }
  }

  /** What sync `j` returned of a memory stays at or below every later cursor over that memory. */
  lemma {:induction false} ReturnedStaysBelow(cfg: Config, memories: seq<seq<Event>>, syncs: seq<SyncAt>, j: nat,
                                              k: nat, e: Event)
    requires IsRun(memories, syncs) && AllTimely(cfg, memories, syncs)
    requires j < k < |syncs| && syncs[j].memory == syncs[k].memory
    requires e in Returned(cfg, memories, syncs, j)
    ensures SeenAny(cfg, memories, syncs, k)
    ensures var c := CursorBefore(cfg, memories, syncs, k); c.Some? && SerialOrZero(e) <= c.value.serial
  {
    hide TimelyAt, CursorInvAt, CursorBefore, Returned, SeenAny, IsRun, LogAt, Seen, AnyWanted, Tracks, SerialOrZero;
    SameMemoryBetween(memories, syncs, j, k);
    CursorInvHolds(cfg, memories, syncs, k - 1);
    assert TimelyAt(cfg, memories, syncs, k - 1);
    AdvancesAt(cfg, memories, syncs, k - 1);
    if j < k - 1 {
      ReturnedStaysBelow(cfg, memories, syncs, j, k - 1, e);
    }
    SeenNext(cfg, memories, syncs, k);
  }

  lemma WantedGrows(cfg: Config, log: seq<Event>, seen: nat)
    requires seen <= |log| && AnyWanted(cfg, log[..seen])
    ensures AnyWanted(cfg, log)
  {
    var i :| 0 <= i < seen && Wanted(cfg, log[..seen][i]);
    assert Wanted(cfg, log[i]);
  }

  lemma {:induction false} SameMemoryBetween(memories: seq<seq<Event>>, syncs: seq<SyncAt>, j: nat, k: nat)
    requires IsRun(memories, syncs) && j < k < |syncs|
    ensures syncs[j].memory <= syncs[k - 1].memory <= syncs[k].memory
  {
    assert FollowsOn(syncs, k);
    if j < k - 1 {
      SameMemoryBetween(memories, syncs, j, k - 1);
    }
  }

  /**
   Exactly once: a punch that was in the memory when sync `k` first met it, stamped inside the
   window of that sync, is returned by sync `k`, and no other sync of that memory returns it.
   */
  lemma ExactlyOnce(cfg: Config, memories: seq<seq<Event>>, syncs: seq<SyncAt>, k: nat, i: nat)
    requires IsRun(memories, syncs) && AllTimely(cfg, memories, syncs)
    requires k < |syncs| && Seen(syncs, k) <= i < syncs[k].count
    ensures var e := memories[syncs[k].memory][i];
            var c := CursorBefore(cfg, memories, syncs, k);
            Wanted(cfg, e) && InReach(cfg, c, syncs[k].now, e.time) ==>
              && e in Returned(cfg, memories, syncs, k)
              && forall j :: 0 <= j < |syncs| && j != k && syncs[j].memory == syncs[k].memory ==>
                               e !in Returned(cfg, memories, syncs, j)
  {
    var e := memories[syncs[k].memory][i];
    var c := CursorBefore(cfg, memories, syncs, k);
    if Wanted(cfg, e) && InReach(cfg, c, syncs[k].now, e.time) {
      CursorInvHolds(cfg, memories, syncs, k);
      SeenFits(memories, syncs, k);
      assert TimelyAt(cfg, memories, syncs, k);
      SyncReturnsNew(cfg, LogAt(memories, syncs, k), Seen(syncs, k), c, syncs[k].now);
      assert LogAt(memories, syncs, k)[i] == e;
      forall j | 0 <= j < |syncs| && j != k && syncs[j].memory == syncs[k].memory
        ensures e !in Returned(cfg, memories, syncs, j)
      {
        if e in Returned(cfg, memories, syncs, j) {
          AtMostOnce(cfg, memories, syncs, if j < k then j else k, if j < k then k else j, e);
        }
      }
    }
  }

  /** Two syncs of the same memory never return the same event. */
  lemma AtMostOnce(cfg: Config, memories: seq<seq<Event>>, syncs: seq<SyncAt>, j: nat, k: nat, e: Event)
    requires IsRun(memories, syncs) && AllTimely(cfg, memories, syncs)
    requires j < k < |syncs| && syncs[j].memory == syncs[k].memory
    requires e in Returned(cfg, memories, syncs, j)
    ensures e !in Returned(cfg, memories, syncs, k)
  {
    ReturnedStaysBelow(cfg, memories, syncs, j, k, e);
    CursorInvHolds(cfg, memories, syncs, k);
    hide TimelyAt, CursorInvAt, CursorBefore, Returned, SeenAny;
    AdvancesAt(cfg, memories, syncs, k);
  }

  // ---------------------------------------------------------------- restarts and bare firmware

  /** A restart that leaves a lower serial at a later time, or events with no serial: all is returned. */
  lemma WholeWindow(cfg: Config, log: seq<Event>, c: Cursor, now: int)
    ensures var events := EventsFound(log, cfg.minors, WindowFrom(cfg, Some(c), now), WindowTo(now));
            SyncOnce(cfg, log, Some(c), now).logs == events
            <==> Restarted(events, c) || Unnumbered(events) || forall e :: e in events ==> SerialOrZero(e) > c.serial
  {
    var events := EventsFound(log, cfg.minors, WindowFrom(cfg, Some(c), now), WindowTo(now));
    AboveMembers(events, c.serial);
    if forall e :: e in events ==> SerialOrZero(e) > c.serial {
      AboveAll(events, c.serial);
    }
  }

  lemma {:induction false} AboveAll(events: seq<Event>, serial: nat)
    requires forall e :: e in events ==> SerialOrZero(e) > serial
    ensures Above(events, serial) == events
  {
    if events != [] {
      assert events == [events[0]] + events[1..];
      assert events[0] in events && forall e :: e in events[1..] ==> e in events;
      AboveAll(events[1..], serial);
    }
  }

  /** A device clock behind the newest event reads the whole lookback again. */
  lemma ClockWentBack(cfg: Config, c: Cursor, now: int)
    requires now < c.time
    ensures WindowFrom(cfg, Some(c), now)
         == WindowFrom(cfg, None, now) <= now - cfg.lookbackMs < WindowFrom(cfg, None, now) + 1000
  {
  }

  // ---------------------------------------------------------------- the adapter

  class HikvisionAdapter {
    const cfg: Config
    const maxPages: nat
    var pageSize: nat // lowered once a terminal refuses the configured size

    constructor (cfg: Config, pageSize: nat)
      ensures this.cfg == cfg && this.pageSize == pageSize && maxPages == MAX_PAGES
    {
      this.cfg, this.pageSize, maxPages := cfg, pageSize, MAX_PAGES;
    }

    /** None when the terminal refuses the page even at the small size. */
    method FetchSizedPage<T>(t: Terminal<T>, position: nat) returns (page: Option<Page<T>>)
      requires position <= |t.items|
      modifies this`pageSize
      ensures SizeAt(t, position, old(pageSize)) == (if page.Some? then Some(pageSize) else None)
      ensures page.Some? ==> page.value == PageOf(t, position, pageSize)
      ensures pageSize == Lowered(t, position, old(pageSize))
    {
      if !Rejects(t, position, pageSize) {
        return Some(PageOf(t, position, pageSize));
      }
      if pageSize <= SMALL_PAGE_SIZE {
        return None;
      }
      pageSize := SMALL_PAGE_SIZE;
      if Rejects(t, position, pageSize) {
        return None;
      }
      page := Some(PageOf(t, position, pageSize));
    }

    method Paginate<T>(t: Terminal<T>) returns (r: Outcome<T>)
      modifies this`pageSize
      ensures r == Listing(t, 0, old(pageSize), maxPages)
      ensures pageSize == SizeAfter(t, 0, old(pageSize), maxPages)
    {
      hide Rejects, SizeAt, Listing, PageOf;
      var all: seq<T> := [];
      for page := 0 to maxPages
        invariant |all| <= |t.items| && all == t.items[..|all|]
        invariant Listing(t, 0, old(pageSize), maxPages) == Listing(t, |all|, pageSize, maxPages - page)
        invariant SizeAfter(t, 0, old(pageSize), maxPages) == SizeAfter(t, |all|, pageSize, maxPages - page)
      {
        OnePage(t, |all|, pageSize, maxPages - page);
        var fetched := FetchSizedPage(t, |all|);
        if fetched == None {
          return Refused;
        }
        var status, items := fetched.value.status, fetched.value.items;
        all := all + items;
        if status != More || items == [] {
          return Done(all);
        }
      }
      OnePage(t, |all|, pageSize, 0);
      r := Unfinished;
    }

    /** `cap` and `limits` describe the terminal; None when some search does not complete. */
    method SearchEvents(log: seq<Event>, from: int, to: int, cap: nat,
                        limits: map<nat, nat>) returns (r: Option<seq<Event>>)
      requires pageSize >= 1 && maxPages >= 1
      requires cap >= 1 && forall p :: p in limits ==> limits[p] >= SMALL_PAGE_SIZE
      modifies this`pageSize
      ensures pageSize >= 1
      ensures r.Some? <==> AllFit(log, cfg.minors, from, to, cap, limits, old(pageSize), maxPages)
      ensures r.Some? ==> r.value == EventsFound(log, cfg.minors, from, to)
    {
      hide Listing, SizeAfter, Reach, Matching, SortBy;
      var events: seq<Event> := [];
      ghost var searches := Searches(log, cfg.minors, from, to, cap, limits);
      for i := 0 to |cfg.minors|
        invariant pageSize >= 1 && pageSize == SizeLeft(searches, i, old(pageSize), maxPages)
        invariant forall n :: 0 <= n < i ==> Fits(searches, n, old(pageSize), maxPages)
        invariant events == Gathered(log, cfg.minors[..i], from, to)
      {
        var t := SearchOf(log, cfg.minors[i], from, to, cap, limits);
        assert t == searches[i];
        OneSearch(t, pageSize, maxPages);
        var infos := Paginate(t);
        if !infos.Done? {
          assert !Fits(searches, i, old(pageSize), maxPages);
          return None;
        }
        assert cfg.minors[..i + 1][..i] == cfg.minors[..i];
        events := events + infos.items;
      }
      assert cfg.minors[..|cfg.minors|] == cfg.minors;
      assert events == Gathered(log, cfg.minors, from, to);
      r := Some(SortBy(SortBy(events, TimeOf), SerialOrZero));
    }

    method Sync(log: seq<Event>, cursor: Option<Cursor>, now: int, cap: nat,
                limits: map<nat, nat>) returns (r: Option<SyncResult>)
      requires pageSize >= 1 && maxPages >= 1
      requires cap >= 1 && forall p :: p in limits ==> limits[p] >= SMALL_PAGE_SIZE
      modifies this`pageSize
      ensures pageSize >= 1
      ensures r.Some? <==>
              AllFit(log, cfg.minors, WindowFrom(cfg, cursor, now), WindowTo(now), cap, limits, old(pageSize), maxPages)
      ensures r.Some? ==> r.value == SyncOnce(cfg, log, cursor, now)
    {
      var earliest := now - cfg.lookbackMs;
      var clockWentBack := cursor.Some? && now < cursor.value.time;
      var from := if cursor.Some? && !clockWentBack then Max(earliest, cursor.value.time - cfg.overlapMs) else earliest;
      var events := SearchEvents(log, FloorToSecond(from), FloorToSecond(now + SEARCH_END_MARGIN_MS), cap, limits);
      if events == None {
        return None;
      }
      var s := if cursor.Some? then SelectNew(events.value, cursor.value) else Selection(events.value, false);
      r := Some(SyncResult(s.selected, Advance(cursor, s)));
    }
  }
}
