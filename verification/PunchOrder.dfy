/**
 What the order in which punches are listed can change: with pairing by key, how punches made at
 the same instant are read. When that changes nothing, exactly.
 */
module PunchOrder {
  import opened AttendanceTypes
  import opened PunchPairing
  import opened Sorting
  import opened Wrappers

  // ---------------------------------------------------------------- reading the keys

  /** A punch whose key says nothing closes what is open, or opens. */
  predicate ReadAsEntry(p: Punch, open: bool) {
    if IsEntry(p.kind).Some? then IsEntry(p.kind).value else !open
  }

  /** After these readings a segment is open. */
  predicate Open(readings: seq<bool>) {
    readings != [] && readings[|readings| - 1]
  }

  /** Each punch as an entry or an exit, given what came before it. */
  function Readings(punches: seq<Punch>): (r: seq<bool>)
    ensures |r| == |punches|
  {
    if punches == [] then []
    else
      var before := Readings(punches[..|punches| - 1]);
      before + [ReadAsEntry(punches[|punches| - 1], Open(before))]
  }

  lemma {:induction false} ReadingsPrefix(punches: seq<Punch>, i: nat)
    requires i <= |punches|
    ensures Readings(punches[..i]) == Readings(punches)[..i]
  {
    if i < |punches| {
      var n := |punches| - 1;
      assert punches[..n][..i] == punches[..i];
      ReadingsPrefix(punches[..n], i);
    } else {
      assert punches[..i] == punches;
    }
  }

  lemma ReadingAt(punches: seq<Punch>, i: nat)
    requires i < |punches|
    ensures Readings(punches)[i] == ReadAsEntry(punches[i], Open(Readings(punches[..i])))
  {
    ReadingsPrefix(punches, i + 1);
    assert punches[..i + 1][..i] == punches[..i];
  }

  lemma {:induction false} OpenIsLastRead(punches: seq<Punch>)
    ensures PressedAll(punches).open.Some? <==> Open(Readings(punches))
  {
    if punches != [] {
      OpenIsLastRead(punches[..|punches| - 1]);
    }
  }

  /** The readings some segments come from. */
  function ReadingsOf(segments: seq<Segment>): seq<bool> {
    if segments == [] then []
    else
      var s := segments[|segments| - 1];
      ReadingsOf(segments[..|segments| - 1]) + (if s.entry.Some? then [true] else []) + (if s.exit.Some? then [false]
                                                                                         else [])
  }

  lemma OneSegmentMore(pairs: seq<PunchPair>, pair: PunchPair)
    ensures ReadingsOf(ToSegments(pairs + [pair]))
         == ReadingsOf(ToSegments(pairs)) + (if pair.entry.Some? then [true]
                                             else []) + (if pair.exit.Some? then [false] else [])
  {
    var segments := ToSegments(pairs + [pair]);
    assert segments[..|pairs|] == ToSegments(pairs) && segments[|pairs|] == ToSegment(pair);
  }

  function OpenReading(s: Pressing): seq<bool> {
    if s.open.Some? then [true] else []
  }

  lemma PressedReads(s: Pressing, p: Punch)
    ensures var r := Pressed(s, p);
            ReadingsOf(ToSegments(r.pairs)) + OpenReading(r)
            == ReadingsOf(ToSegments(s.pairs)) + OpenReading(s) + [ReadAsEntry(p, s.open.Some?)]
  {
    OneSegmentMore(s.pairs, PunchPair(s.open, None));
    OneSegmentMore(s.pairs, PunchPair(s.open, Some(p)));
    hide ReadingsOf;
    var r := Pressed(s, p);
    if ReadAsEntry(p, s.open.Some?) {
      assert r.open == Some(p);
    } else {
      assert r.open == None;
    }
  }

  lemma {:induction false} PressedAllReads(punches: seq<Punch>)
    ensures var s := PressedAll(punches); ReadingsOf(ToSegments(s.pairs)) + OpenReading(s) == Readings(punches)
  {
    if punches != [] {
      var before := punches[..|punches| - 1];
      PressedAllReads(before);
      OpenIsLastRead(before);
      PressedReads(PressedAll(before), punches[|punches| - 1]);
      hide ReadingsOf, OpenReading, Pressed, ReadAsEntry;
    }
  }

  /** The segments of a day paired by key tell how each punch was read. */
  lemma ByTypeReads(punches: seq<Punch>)
    ensures ReadingsOf(ToSegments(ByType(punches))) == Readings(punches)
  {
    var s := PressedAll(punches);
    PressedAllReads(punches);
    OneSegmentMore(s.pairs, PunchPair(s.open, None));
  }

  /** The same state of the pairing, as far as times go. */
  predicate SameTimes(x: Pressing, y: Pressing) {
    && ToSegments(x.pairs) == ToSegments(y.pairs)
    && (x.open.Some? <==> y.open.Some?)
    && (x.open.Some? ==> x.open.value.at == y.open.value.at)
  }

  lemma PressedAlike(x: Pressing, y: Pressing, p: Punch, q: Punch)
    requires SameTimes(x, y) && p.at == q.at && ReadAsEntry(p, x.open.Some?) == ReadAsEntry(q, y.open.Some?)
    ensures SameTimes(Pressed(x, p), Pressed(y, q))
  {
    AppendSegment(x.pairs, PunchPair(x.open, None));
    AppendSegment(y.pairs, PunchPair(y.open, None));
    AppendSegment(x.pairs, PunchPair(x.open, Some(p)));
    AppendSegment(y.pairs, PunchPair(y.open, Some(q)));
    hide ToSegments;
  }

  lemma AppendSegment(pairs: seq<PunchPair>, pair: PunchPair)
    ensures ToSegments(pairs + [pair]) == ToSegments(pairs) + [ToSegment(pair)]
  {
  }

  /** Punches at the same times, read alike, are paired alike. */
  lemma {:induction false} ReadAlike(a: seq<Punch>, b: seq<Punch>)
    requires Keys(a, At) == Keys(b, At) && Readings(a) == Readings(b)
    ensures SameTimes(PressedAll(a), PressedAll(b))
  {
    assert |a| == |Keys(a, At)| == |Keys(b, At)| == |b|;
    if a != [] {
      var n := |a| - 1;
      KeysPrefix(a, n);
      KeysPrefix(b, n);
      ReadingsPrefix(a, n);
      ReadingsPrefix(b, n);
      ReadAlike(a[..n], b[..n]);
      OpenIsLastRead(a[..n]);
      OpenIsLastRead(b[..n]);
      assert Keys(a, At)[n] == a[n].at && Keys(b, At)[n] == b[n].at;
      assert Readings(a)[n] == Readings(b)[n];
      hide SameTimes, Keys;
      PressedAlike(PressedAll(a[..n]), PressedAll(b[..n]), a[n], b[n]);
    }
  }

  lemma KeysPrefix(s: seq<Punch>, i: nat)
    requires i <= |s|
    ensures Keys(s[..i], At) == Keys(s, At)[..i]
  {
  }

  /** Punches at the same times give the same segments exactly when they are read alike. */
  lemma SegmentsTell(a: seq<Punch>, b: seq<Punch>)
    requires Keys(a, At) == Keys(b, At)
    ensures ToSegments(ByType(a)) == ToSegments(ByType(b)) <==> Readings(a) == Readings(b)
  {
    ByTypeReads(a);
    ByTypeReads(b);
    if Readings(a) == Readings(b) {
      ReadAlike(a, b);
      var x, y := PressedAll(a), PressedAll(b);
      AppendSegment(x.pairs, PunchPair(x.open, None));
      AppendSegment(y.pairs, PunchPair(y.open, None));
    }
  }

  // ---------------------------------------------------------------- the kept punches

  lemma {:induction false} WithinMultiset(a: seq<Punch>, w: Window, p: Punch)
    ensures multiset(Within(a, w))[p] == if w.from <= p.at < w.to then multiset(a)[p] else 0
  {
    if a != [] {
      WithinMultiset(a[1..], w, p);
      assert a == [a[0]] + a[1..];
    }
  }

  lemma WithinAnyOrder(a: seq<Punch>, b: seq<Punch>, w: Window)
    requires multiset(a) == multiset(b)
    ensures multiset(Within(a, w)) == multiset(Within(b, w))
  {
    forall p ensures multiset(Within(a, w))[p] == multiset(Within(b, w))[p] {
      WithinMultiset(a, w, p);
      WithinMultiset(b, w, p);
    }
  }

  lemma {:induction false} WithinMembers(s: seq<Punch>, w: Window)
    ensures forall p :: p in Within(s, w) <==> p in s && w.from <= p.at < w.to
  {
    if s != [] {
      WithinMembers(s[1..], w);
      assert s == [s[0]] + s[1..];
    }
  }

  /** The times of the kept punches, and how many were ignored, do not depend on the order supplied. */
  lemma SelectedOrderFree(day: WorkDayContext, a: seq<Punch>, b: seq<Punch>, policy: Policy)
    requires multiset(a) == multiset(b)
    ensures var x, y := Selected(day, a, policy), Selected(day, b, policy);
            && Keys(x.kept, At) == Keys(y.kept, At)
            && |x.kept| == |y.kept| && |x.ignored| == |y.ignored|
  {
    WithinAnyOrder(a, b, day.window);
    SortedKeysUnique(Within(a, day.window), Within(b, day.window), At);
    var x, y := SortBy(Within(a, day.window), At), SortBy(Within(b, day.window), At);
    assert |x| == |Keys(x, At)| == |Keys(y, At)| == |y|;
    DroppedByTime(x, policy.duplicatePunchWindowSeconds);
    DroppedByTime(y, policy.duplicatePunchWindowSeconds);
    assert |Selected(day, a, policy).kept| == |Keys(Selected(day, a, policy).kept, At)|;
    assert |Selected(day, b, policy).kept| == |Keys(Selected(day, b, policy).kept, At)|;
  }

  /** Sorted, and so the double presses taken out leave an ascending list of times. */
  lemma KeptAscend(day: WorkDayContext, punches: seq<Punch>, policy: Policy)
    ensures var kept := Selected(day, punches, policy).kept;
            Ascending(Keys(kept, At)) && Ordered(kept, At)
  {
    var ordered := SortBy(Within(punches, day.window), At);
    SortOrdered(Within(punches, day.window), At);
    DroppedByTime(ordered, policy.duplicatePunchWindowSeconds);
    DroppedTimesAscend(Keys(ordered, At), policy.duplicatePunchWindowSeconds);
    KeysOrdered(Selected(day, punches, policy).kept);
  }

  lemma KeysOrdered(punches: seq<Punch>)
    requires Ascending(Keys(punches, At))
    ensures Ordered(punches, At)
  {
    var k := Keys(punches, At);
    assert forall i :: 0 <= i < |punches| ==> k[i] == At(punches[i]);
  }

  lemma KeptMembers(day: WorkDayContext, punches: seq<Punch>, policy: Policy)
    ensures forall p :: p in Selected(day, punches, policy).kept ==> p in punches
  {
    var inWindow := Within(punches, day.window);
    var ordered := SortBy(inWindow, At);
    var s := Dropped(ordered, policy.duplicatePunchWindowSeconds);
    DroppedKeepsAll(ordered, policy.duplicatePunchWindowSeconds);
    SortMultiset(inWindow, At);
    WithinMembers(punches, day.window);
    hide Dropped, SortBy, Within;
    forall p | p in s.kept ensures p in punches {
      assert p in multiset(s.kept) + multiset(s.ignored);
      assert p in multiset(inWindow);
    }
  }

  // ---------------------------------------------------------------- when the order is harmless

  /** A punch made when the kept punch `i` was is read as that one is. */
  predicate ReadsLike(kept: seq<Punch>, i: nat, p: Punch)
    requires i < |kept|
  {
    p.at == kept[i].at ==> ReadAsEntry(p, Open(Readings(kept[..i]))) == Readings(kept)[i]
  }

  /** At the instant of each kept punch, any other made then would be read alike in its place. */
  predicate TiesReadAlike(day: WorkDayContext, punches: seq<Punch>, policy: Policy) {
    var kept := Selected(day, punches, policy).kept;
    forall i, p :: 0 <= i < |kept| && p in punches ==> ReadsLike(kept, i, p)
  }

  /** What a caller can look at before: in order, whatever is pressed says nothing; by key, no tie is read two ways. */
  predicate OrderHarmless(day: WorkDayContext, punches: seq<Punch>, policy: Policy) {
    policy.punchPairing == SEQUENTIAL || TiesReadAlike(day, punches, policy)
  }

  lemma ReadOneMore(x: seq<Punch>, y: seq<Punch>, i: nat)
    requires i < |x| && i < |y| && Readings(x[..i]) == Readings(y[..i])
    requires x[i].at == y[i].at && ReadsLike(x, i, y[i])
    ensures Readings(x[..i + 1]) == Readings(y[..i + 1])
  {
    hide Readings, ReadAsEntry;
    ReadingsPrefix(x, i + 1);
    ReadingsPrefix(x, i);
    ReadingsPrefix(y, i + 1);
    ReadingsPrefix(y, i);
    ReadingAt(y, i);
  }

  /** What is kept of another listing is read like what is kept of this one. */
  lemma KeptReadsLike(day: WorkDayContext, a: seq<Punch>, b: seq<Punch>, policy: Policy, i: nat)
    requires multiset(a) == multiset(b) && TiesReadAlike(day, a, policy)
    requires i < |Selected(day, a, policy).kept|
    ensures var x, y := Selected(day, a, policy).kept, Selected(day, b, policy).kept;
            |x| == |y| && x[i].at == y[i].at && ReadsLike(x, i, y[i])
  {
    SelectedOrderFree(day, a, b, policy);
    KeptMembers(day, b, policy);
    hide Selected, ReadsLike;
    var x, y := Selected(day, a, policy).kept, Selected(day, b, policy).kept;
    assert Keys(x, At)[i] == x[i].at && Keys(y, At)[i] == y[i].at;
    assert y[i] in y && y[i] in b && y[i] in multiset(a);
    assert y[i] in a;
  }

  lemma {:induction false} PrefixReadAlike(day: WorkDayContext, a: seq<Punch>, b: seq<Punch>, policy: Policy, i: nat)
    requires multiset(a) == multiset(b) && TiesReadAlike(day, a, policy)
    requires i <= |Selected(day, a, policy).kept| == |Selected(day, b, policy).kept|
    ensures Readings(Selected(day, a, policy).kept[..i]) == Readings(Selected(day, b, policy).kept[..i])
  {
    if i > 0 {
      PrefixReadAlike(day, a, b, policy, i - 1);
      KeptReadsLike(day, a, b, policy, i - 1);
      ReadOneMore(Selected(day, a, policy).kept, Selected(day, b, policy).kept, i - 1);
    }
  }

  /** Listed in any order, the kept punches are read alike. */
  lemma TiesKeepReadings(day: WorkDayContext, a: seq<Punch>, b: seq<Punch>, policy: Policy)
    requires multiset(a) == multiset(b) && TiesReadAlike(day, a, policy)
    ensures Readings(Selected(day, a, policy).kept) == Readings(Selected(day, b, policy).kept)
  {
    var x, y := Selected(day, a, policy).kept, Selected(day, b, policy).kept;
    SelectedOrderFree(day, a, b, policy);
    PrefixReadAlike(day, a, b, policy, |x|);
    assert x[..|x|] == x && y[..|y|] == y;
  }

  // ---------------------------------------------------------------- and when it is not

  lemma {:induction false} WithinAppend(s: seq<Punch>, p: Punch, w: Window)
    ensures Within(s + [p], w) == Within(s, w) + if w.from <= p.at < w.to then [p] else []
  {
    if s == [] {
      assert [] + [p] == [p] && [p][1..] == [];
    } else {
      WithinAppend(s[1..], p, w);
      assert (s + [p])[1..] == s[1..] + [p];
    }
  }

  lemma {:induction false} WithinWithin(s: seq<Punch>, outer: Window, inner: Window)
    requires outer.from <= inner.from && inner.to <= outer.to
    ensures Within(Within(s, outer), inner) == Within(s, inner)
  {
    if s != [] {
      WithinWithin(s[1..], outer, inner);
    }
  }

  lemma {:induction false} InsertWithin(x: Punch, s: seq<Punch>, w: Window)
    requires Ordered(s, At)
    ensures Within(Insert(x, s, At), w) == if w.from <= x.at < w.to then Insert(x, Within(s, w), At) else Within(s, w)
  {
    if s != [] {
      if At(x) <= At(s[0]) {
        assert ([x] + s)[1..] == s;
        FirstWithin(s, w);
      } else {
        InsertWithin(x, s[1..], w);
        assert ([s[0]] + Insert(x, s[1..], At))[1..] == Insert(x, s[1..], At);
      }
    }
  }

  /** Ordered punches from the first on: what is within begins no earlier. */
  lemma FirstWithin(s: seq<Punch>, w: Window)
    requires Ordered(s, At) && s != []
    ensures forall p :: p in Within(s, w) ==> At(s[0]) <= At(p)
  {
    WithinMembers(s, w);
    forall p | p in s ensures At(s[0]) <= At(p) {
      var i :| 0 <= i < |s| && s[i] == p;
    }
  }

  lemma {:induction false} SortWithin(s: seq<Punch>, w: Window)
    ensures Within(SortBy(s, At), w) == SortBy(Within(s, w), At)
  {
    if s != [] {
      SortWithin(s[1..], w);
      SortOrdered(s[1..], At);
      InsertWithin(s[0], SortBy(s[1..], At), w);
    }
  }

  lemma {:induction false} NoneBefore(s: seq<Punch>, from: int, t: int)
    requires forall i :: 0 <= i < |s| ==> s[i].at >= t
    ensures Within(s, Window(from, t)) == []
  {
    if s != [] {
      assert s[0].at >= t && forall i :: 0 <= i < |s[1..]| ==> s[1..][i] == s[i + 1];
      NoneBefore(s[1..], from, t);
    }
  }

  lemma TailOrdered(s: seq<Punch>)
    requires Ordered(s, At) && s != []
    ensures Ordered(s[1..], At) && forall i :: 0 <= i < |s| ==> s[0].at <= s[i].at
  {
    forall i | 0 <= i < |s| ensures s[0].at <= s[i].at {
      assert i == 0 || At(s[0]) <= At(s[i]);
    }
  }

  /** From an instant before all of them: none is left out at the beginning. */
  predicate AllFrom(s: seq<Punch>, from: int) {
    forall i :: 0 <= i < |s| ==> from <= s[i].at
  }

  /** What comes before an instant is the beginning of an ordered list. */
  lemma {:induction false} BeforeIsPrefix(s: seq<Punch>, from: int, t: int)
    requires Ordered(s, At) && AllFrom(s, from)
    ensures Within(s, Window(from, t)) <= s
    ensures AllFrom(s[|Within(s, Window(from, t))|..], t)
  {
    if s != [] {
      TailOrdered(s);
      hide Ordered;
      if s[0].at >= t {
        NoneBefore(s, from, t);
      } else {
        var rest := Within(s[1..], Window(from, t));
        BeforeIsPrefix(s[1..], from, t);
        assert Within(s, Window(from, t)) == [s[0]] + rest;
        assert s == [s[0]] + s[1..];
        assert s[|rest| + 1..] == s[1..][|rest|..];
      }
    }
  }

  lemma InsertFurther(x: Punch, s: seq<Punch>, before: seq<Punch>)
    requires s != [] && s[0].at < x.at && before <= s[1..]
    requires Insert(x, s[1..], At) == before + [x] + s[1..][|before|..]
    ensures [s[0]] + before <= s && Insert(x, s, At) == ([s[0]] + before) + [x] + s[|before| + 1..]
  {
    var tail := s[1..][|before|..];
    assert Insert(x, s, At) == [s[0]] + Insert(x, s[1..], At);
    hide Insert;
    assert s[|before| + 1..] == tail;
    Regroup(s[0], before, x, tail);
    assert s == [s[0]] + s[1..];
  }

  lemma Regroup(first: Punch, before: seq<Punch>, x: Punch, tail: seq<Punch>)
    ensures [first] + (before + [x] + tail) == ([first] + before) + [x] + tail
  {
  }

  /** A punch is sorted in front of those of its instant. */
  lemma {:induction false} InsertInFront(x: Punch, s: seq<Punch>, from: int)
    requires Ordered(s, At) && AllFrom(s, from)
    ensures var before := Within(s, Window(from, x.at));
            before <= s && Insert(x, s, At) == before + [x] + s[|before|..]
  {
    if s == [] {
      assert Within(s, Window(from, x.at)) == [];
    } else {
      TailOrdered(s);
      TailFrom(s, from);
      if s[0].at >= x.at {
        NoneBefore(s, from, x.at);
      } else {
        hide Ordered, AllFrom, Insert;
        InsertInFront(x, s[1..], from);
        InsertFurther(x, s, Within(s[1..], Window(from, x.at)));
      }
    }
  }

  lemma TailFrom(s: seq<Punch>, from: int)
    requires AllFrom(s, from) && s != []
    ensures AllFrom(s[1..], from) && from <= s[0].at
  {
  }

  lemma InsertTwo(p: Punch, q: Punch, sorted: seq<Punch>, from: int)
    requires p.at == q.at && from <= p.at && Ordered(sorted, At) && AllFrom(sorted, from)
             && AllFrom(Insert(q, sorted, At), from)
    ensures Within(sorted, Window(from, p.at)) + [p, q] <= Insert(p, Insert(q, sorted, At), At)
  {
    hide Insert, Within, Ordered, AllFrom;
    var w := Window(from, p.at);
    var before, one := Within(sorted, w), Insert(q, sorted, At);
    InsertInFront(q, sorted, from);
    InsertOrdered(q, sorted, At);
    InsertWithin(q, sorted, w);
    InsertInFront(p, one, from);
    Joined(before, p, q, sorted[|before|..], one);
  }

  lemma Joined(before: seq<Punch>, p: Punch, q: Punch, tail: seq<Punch>, one: seq<Punch>)
    requires one == before + [q] + tail
    ensures before + [p, q] <= before + [p] + one[|before|..]
  {
    assert one[|before|..] == [q] + tail;
  }

  /** Two of one instant listed first are sorted next to each other, in front of those of their instant. */
  lemma TwoInFront(p: Punch, q: Punch, rest: seq<Punch>, from: int)
    requires p.at == q.at && from <= p.at && AllFrom(rest, from)
    ensures SortBy(Within(rest, Window(from, p.at)), At) + [p, q] <= SortBy([p, q] + rest, At)
  {
    SortOrdered(rest, At);
    SortWithin(rest, Window(from, p.at));
    SortFrom(rest, from);
    assert ([p, q] + rest)[1..] == [q] + rest && ([q] + rest)[1..] == rest;
    assert SortBy([p, q] + rest, At) == Insert(p, SortBy([q] + rest, At), At);
    assert SortBy([q] + rest, At) == Insert(q, SortBy(rest, At), At);
    hide Insert, SortBy, Within, Ordered, AllFrom;
    InsertTwo(p, q, SortBy(rest, At), from);
  }

  lemma SortFrom(s: seq<Punch>, from: int)
    requires AllFrom(s, from)
    ensures AllFrom(SortBy(s, At), from)
    ensures forall q: Punch {:trigger Insert(q, SortBy(s, At), At)} :: from <= q.at ==>
                                                                         AllFrom(Insert(q, SortBy(s, At), At), from)
  {
    var sorted := SortBy(s, At);
    SortMultiset(s, At);
    MembersFrom(s, sorted, from);
    forall q: Punch | from <= q.at ensures AllFrom(Insert(q, sorted, At), from) {
      InsertMultiset(q, sorted, At);
      var all := Insert(q, sorted, At);
      forall i | 0 <= i < |all| ensures from <= all[i].at {
        assert all[i] in multiset(all);
        assert all[i] == q || all[i] in sorted;
      }
    }
  }

  lemma MembersFrom(a: seq<Punch>, b: seq<Punch>, from: int)
    requires multiset(a) == multiset(b) && AllFrom(a, from)
    ensures AllFrom(b, from)
  {
    forall i | 0 <= i < |b| ensures from <= b[i].at {
      assert b[i] in multiset(b);
      assert b[i] in multiset(a);
      assert b[i] in a;
    }
  }

  // ---------------------------------------------------------------- what is kept of a tie

  lemma {:induction false} DroppedPrefix(a: seq<Punch>, b: seq<Punch>, windowSeconds: nat)
    ensures Dropped(a, windowSeconds).kept <= Dropped(a + b, windowSeconds).kept
  {
    if b == [] {
      assert a + b == a;
    } else {
      var n := |b| - 1;
      DroppedPrefix(a, b[..n], windowSeconds);
      assert (a + b)[..|a + b| - 1] == a + b[..n];
    }
  }

  /** A second press right after the first, and one long after. */
  lemma FirstOfTwoKept(a: Punch, b: Punch, z: Punch, windowSeconds: nat)
    requires b.at - a.at < windowSeconds * 1000 <= z.at - a.at
    ensures Dropped([a, b, z], windowSeconds) == Selection([a, z], [b])
  {
    hide Dropped;
    DroppedNone(windowSeconds);
    assert [] + [a] == [a] && [a] + [b] == [a, b] && [a, b] + [z] == [a, b, z];
    DroppedOneMore([], a, windowSeconds);
    DroppedOneMore([a], b, windowSeconds);
    DroppedOneMore([a, b], z, windowSeconds);
  }

  /** The last punch of an ordered list is the last kept, or repeats it. */
  lemma LastKept(s: seq<Punch>, windowSeconds: nat)
    requires s != [] && windowSeconds > 0
    ensures Repeats(Dropped(s, windowSeconds).kept, s[|s| - 1], windowSeconds)
  {
  }

  /** A punch kept: what was kept before it is what is kept of the punches before its instant. */
  lemma {:induction false} KeptBefore(s: seq<Punch>, windowSeconds: nat, from: int, i: nat)
    requires Ordered(s, At) && AllFrom(s, from) && windowSeconds > 0
    requires i < |Dropped(s, windowSeconds).kept|
    ensures var kept := Dropped(s, windowSeconds).kept;
            && Dropped(Within(s, Window(from, kept[i].at)), windowSeconds).kept == kept[..i]
            && !Repeats(kept[..i], kept[i], windowSeconds)
  {
    hide Ordered, AllFrom, Dropped, Repeats, Within;
    DroppedSome(s, windowSeconds);
    var n := |s| - 1;
    var x, before := s[n], Dropped(s[..n], windowSeconds).kept;
    var kept := Dropped(s, windowSeconds).kept;
    assert s[..n] + [x] == s;
    DroppedOneMore(s[..n], x, windowSeconds);
    WithoutLast(s, from);
    if i < |before| {
      assert kept[i] == before[i] && kept[..i] == before[..i];
      KeptNoLater(s[..n], windowSeconds, i);
      assert s[..n][n - 1] == s[n - 1] && kept[i].at <= x.at;
      WithinAppend(s[..n], x, Window(from, kept[i].at));
      assert Within(s, Window(from, kept[i].at)) == Within(s[..n], Window(from, kept[i].at));
      KeptBefore(s[..n], windowSeconds, from, i);
    } else {
      assert kept == before + [x] && i == |before|;
      assert kept[..i] == before && kept[i] == x;
      KeptLast(s[..n], x, windowSeconds, from);
    }
  }

  lemma WithoutLast(s: seq<Punch>, from: int)
    requires Ordered(s, At) && AllFrom(s, from) && s != []
    ensures Ordered(s[..|s| - 1], At) && AllFrom(s[..|s| - 1], from)
    ensures |s| > 1 ==> s[|s| - 2].at <= s[|s| - 1].at
  {
    assert |s| > 1 ==> At(s[|s| - 2]) <= At(s[|s| - 1]);
  }

  lemma KeptLast(s: seq<Punch>, x: Punch, windowSeconds: nat, from: int)
    requires Ordered(s + [x], At) && AllFrom(s, from) && windowSeconds > 0
    requires !Repeats(Dropped(s, windowSeconds).kept, x, windowSeconds)
    ensures Within(s + [x], Window(from, x.at)) == s
  {
    WithinAppend(s, x, Window(from, x.at));
    var all := s + [x];
    if s != [] {
      LastKept(s, windowSeconds);
      forall i | 0 <= i < |s| ensures s[i].at < x.at {
        assert At(all[|s| - 1]) <= At(all[|s|]);
        assert i == |s| - 1 || At(all[i]) <= At(all[|s| - 1]);
      }
    }
    AllBefore(s, from, x.at);
  }

  lemma KeptNoLater(s: seq<Punch>, windowSeconds: nat, i: nat)
    requires Ordered(s, At) && i < |Dropped(s, windowSeconds).kept|
    ensures s != [] && Dropped(s, windowSeconds).kept[i].at <= s[|s| - 1].at
  {
    var kept := Dropped(s, windowSeconds).kept;
    DroppedByTime(s, windowSeconds);
    DroppedTimesAscend(Keys(s, At), windowSeconds);
    var k := Keys(kept, At);
    assert k[i] == kept[i].at && k[|k| - 1] == kept[|k| - 1].at;
    DroppedSpacing(s, windowSeconds);
  }

  lemma {:induction false} AllBefore(s: seq<Punch>, from: int, t: int)
    requires AllFrom(s, from) && forall i :: 0 <= i < |s| ==> s[i].at < t
    ensures Within(s, Window(from, t)) == s
  {
    if s != [] {
      AllBefore(s[1..], from, t);
    }
  }

  function Remove(s: seq<Punch>, p: Punch): seq<Punch> {
    if s == [] then [] else if s[0] == p then s[1..] else [s[0]] + Remove(s[1..], p)
  }

  lemma {:induction false} RemoveOne(s: seq<Punch>, p: Punch)
    requires p in s
    ensures multiset(s) == multiset{p} + multiset(Remove(s, p))
  {
    assert s == [s[0]] + s[1..];
    if s[0] != p {
      RemoveOne(s[1..], p);
    }
  }

  lemma {:induction false} RemoveOutside(s: seq<Punch>, p: Punch, w: Window)
    requires !(w.from <= p.at < w.to)
    ensures Within(Remove(s, p), w) == Within(s, w)
  {
    if s != [] && s[0] != p {
      RemoveOutside(s[1..], p, w);
    }
  }

  /** The same punches with these two listed first. */
  function Fronted(s: seq<Punch>, p: Punch, q: Punch): seq<Punch> {
    [p, q] + Remove(Remove(s, p), q)
  }

  lemma FrontedIsListing(s: seq<Punch>, p: Punch, q: Punch)
    requires p in s && q in s && p != q
    ensures multiset(Fronted(s, p, q)) == multiset(s)
  {
    RemoveOne(s, p);
    assert q in multiset(s) && multiset(Remove(s, p))[q] == multiset(s)[q];
    assert q in multiset(Remove(s, p)) && q in Remove(s, p);
    RemoveOne(Remove(s, p), q);
    assert multiset([p, q]) == multiset{p} + multiset{q};
    hide Remove;
  }

  /** The punches of the window before an instant, in order. */
  function SortedBefore(s: seq<Punch>, w: Window, t: int): seq<Punch> {
    SortBy(Within(s, Window(w.from, t)), At)
  }

  lemma FrontedSorted(s: seq<Punch>, p: Punch, q: Punch, w: Window)
    requires p.at == q.at && w.from <= p.at < w.to
    ensures SortedBefore(s, w, p.at) + [p, q] <= SortBy(Within(Fronted(s, p, q), w), At)
  {
    var rest := Remove(Remove(s, p), q);
    assert Fronted(s, p, q)[1..] == [q] + rest && ([q] + rest)[1..] == rest;
    assert Within([q] + rest, w) == [q] + Within(rest, w);
    assert Within(Fronted(s, p, q), w) == [p, q] + Within(rest, w);
    hide SortBy;
    WithinFrom(rest, w);
    TwoInFront(p, q, Within(rest, w), w.from);
    WithinWithin(rest, w, Window(w.from, p.at));
    RemoveOutside(Remove(s, p), q, Window(w.from, p.at));
    RemoveOutside(s, p, Window(w.from, p.at));
  }

  lemma WithinFrom(s: seq<Punch>, w: Window)
    ensures AllFrom(Within(s, w), w.from)
  {
    WithinMembers(s, w);
    forall i | 0 <= i < |Within(s, w)| ensures w.from <= Within(s, w)[i].at {
      assert Within(s, w)[i] in Within(s, w);
    }
  }

  /** What is kept of a day whose tie is listed first: before it `kept`, then the first of the two, or both. */
  lemma FrontedKept(day: WorkDayContext, s: seq<Punch>, p: Punch, q: Punch, policy: Policy)
    requires p.at == q.at && day.window.from <= p.at < day.window.to
    ensures var n := policy.duplicatePunchWindowSeconds;
            var before := Dropped(SortedBefore(s, day.window, p.at), n).kept;
            var kept := Selected(day, Fronted(s, p, q), policy).kept;
            && (!Repeats(before, p, n) ==> before + [p] <= kept)
            && (n == 0 ==> before + [p, q] <= kept)
  {
    FrontedSorted(s, p, q, day.window);
    LastBefore(s, day.window, p.at, policy.duplicatePunchWindowSeconds);
    KeptOfTwo(SortedBefore(s, day.window, p.at), p, q, SortBy(Within(Fronted(s, p, q), day.window), At),
              policy.duplicatePunchWindowSeconds);
    hide SortedBefore, Fronted, Dropped, SortBy, Within, Repeats;
  }

  lemma KeptOfTwo(b: seq<Punch>, p: Punch, q: Punch, sorted: seq<Punch>, windowSeconds: nat)
    requires p.at == q.at && b + [p, q] <= sorted
    requires var before := Dropped(b, windowSeconds).kept; before != [] ==> before[|before| - 1].at < p.at
    ensures var before, kept := Dropped(b, windowSeconds).kept, Dropped(sorted, windowSeconds).kept;
            && (!Repeats(before, p, windowSeconds) ==> before + [p] <= kept)
            && (windowSeconds == 0 ==> before + [p, q] <= kept)
  {
    hide Dropped;
    var before := Dropped(b, windowSeconds).kept;
    assert sorted == (b + [p]) + sorted[|b| + 1..];
    assert sorted == (b + [p] + [q]) + sorted[|b| + 2..];
    DroppedOneMore(b, p, windowSeconds);
    DroppedPrefix(b + [p], sorted[|b| + 1..], windowSeconds);
    if windowSeconds == 0 {
      DroppedPrefix(b + [p] + [q], sorted[|b| + 2..], windowSeconds);
      DroppedOneMore(b + [p], q, windowSeconds);
      assert before + [p] + [q] == before + [p, q];
    }
  }

  lemma LastBefore(s: seq<Punch>, w: Window, t: int, windowSeconds: nat)
    ensures var before := Dropped(SortedBefore(s, w, t), windowSeconds).kept;
            before != [] ==> before[|before| - 1].at < t
  {
    var inside := Within(s, Window(w.from, t));
    var sorted := SortBy(inside, At);
    var before := Dropped(sorted, windowSeconds).kept;
    WithinMembers(s, Window(w.from, t));
    SortMultiset(inside, At);
    DroppedKeepsAll(sorted, windowSeconds);
    hide Within, SortBy, Dropped;
    if before != [] {
      var p := before[|before| - 1];
      assert p in multiset(before) + multiset(Dropped(sorted, windowSeconds).ignored);
      assert p in multiset(inside);
    }
  }

  /** Two lists that go on differently are read differently. */
  lemma ReadsOn(before: seq<Punch>, x: seq<Punch>, y: seq<Punch>, p: Punch, q: Punch)
    requires before + [p] <= x && before + [q] <= y
    requires ReadAsEntry(p, Open(Readings(before))) != ReadAsEntry(q, Open(Readings(before)))
    ensures Readings(x) != Readings(y)
  {
    var n := |before|;
    assert x[..n] == before == y[..n] && x[n] == p && y[n] == q;
    ReadingAt(x, n);
    ReadingAt(y, n);
    hide Readings, ReadAsEntry;
  }

  lemma ReadsOnTwo(before: seq<Punch>, x: seq<Punch>, y: seq<Punch>, p: Punch, q: Punch)
    requires before + [p, q] <= x && before + [q, p] <= y && IsEntry(p.kind) != IsEntry(q.kind)
    ensures Readings(x) != Readings(y)
  {
    var n := |before|;
    TwoReadings(before, x, p, q);
    TwoReadings(before, y, q, p);
    hide Readings;
    assert Readings(x)[n] != Readings(y)[n] || Readings(x)[n + 1] != Readings(y)[n + 1];
  }

  lemma TwoReadings(before: seq<Punch>, x: seq<Punch>, p: Punch, q: Punch)
    requires before + [p, q] <= x
    ensures var n, first := |before|, ReadAsEntry(p, Open(Readings(before)));
            Readings(x)[n] == first && Readings(x)[n + 1] == ReadAsEntry(q, first)
  {
    var n := |before|;
    hide Readings, ReadAsEntry;
    assert x[..n] == before && x[n] == p && x[n + 1] == q;
    ReadingAt(x, n);
    ReadingAt(x, n + 1);
    ReadingsPrefix(x, n + 1);
  }

  /** A tie that is read two ways: of the two listings with it in front, one is read like neither. */
  lemma TieIsSeen(day: WorkDayContext, s: seq<Punch>, policy: Policy, i: nat, p: Punch)
    requires i < |Selected(day, s, policy).kept| && p in s && !ReadsLike(Selected(day, s, policy).kept, i, p)
    ensures var q := Selected(day, s, policy).kept[i];
            && multiset(Fronted(s, p, q)) == multiset(s) == multiset(Fronted(s, q, p))
            && Readings(Selected(day, Fronted(s, p, q), policy).kept) != Readings(Selected(day, Fronted(s, q, p),
                                                                                           policy).kept)
  {
    var n, kept := policy.duplicatePunchWindowSeconds, Selected(day, s, policy).kept;
    var q, w := kept[i], day.window;
    KeptMembers(day, s, policy);
    KeptInWindow(day, s, policy, i);
    ReadingAt(kept, i);
    assert IsEntry(p.kind) != IsEntry(q.kind) && q in s;
    FrontedIsListing(s, p, q);
    FrontedIsListing(s, q, p);
    FrontedKept(day, s, p, q, policy);
    FrontedKept(day, s, q, p, policy);
    var before := Dropped(SortedBefore(s, w, q.at), n).kept;
    var x, y := Selected(day, Fronted(s, p, q), policy).kept, Selected(day, Fronted(s, q, p), policy).kept;
    if n == 0 {
      ReadsOnTwo(before, x, y, p, q);
    } else {
      KeptBeforeTie(day, s, policy, i);
      ReadsOn(before, x, y, p, q);
    }
  }

  lemma KeptInWindow(day: WorkDayContext, s: seq<Punch>, policy: Policy, i: nat)
    requires i < |Selected(day, s, policy).kept|
    ensures day.window.from <= Selected(day, s, policy).kept[i].at < day.window.to
  {
    var inside := Within(s, day.window);
    var sorted := SortBy(inside, At);
    var r := Dropped(sorted, policy.duplicatePunchWindowSeconds);
    WithinMembers(s, day.window);
    SortMultiset(inside, At);
    DroppedKeepsAll(sorted, policy.duplicatePunchWindowSeconds);
    hide Within, SortBy, Dropped;
    assert r.kept[i] in multiset(r.kept) + multiset(r.ignored);
    assert r.kept[i] in multiset(inside);
  }

  lemma KeptBeforeTie(day: WorkDayContext, s: seq<Punch>, policy: Policy, i: nat)
    requires i < |Selected(day, s, policy).kept| && policy.duplicatePunchWindowSeconds > 0
    ensures var n, kept := policy.duplicatePunchWindowSeconds, Selected(day, s, policy).kept;
            Dropped(SortedBefore(s, day.window, kept[i].at), n).kept == kept[..i] && !Repeats(kept[..i], kept[i], n)
  {
    var w, n, kept := day.window, policy.duplicatePunchWindowSeconds, Selected(day, s, policy).kept;
    var inside := Within(s, w);
    var t := kept[i].at;
    KeptInWindow(day, s, policy, i);
    SortOrdered(inside, At);
    WithinFrom(s, w);
    SortFrom(inside, w.from);
    KeptBefore(SortBy(inside, At), n, w.from, i);
    SortWithin(inside, Window(w.from, t));
    WithinWithin(s, w, Window(w.from, t));
    hide Within, SortBy, Dropped, Repeats;
  }

  // ---------------------------------------------------------------- ties at a glance

  /** Whether a punch of the day shares its instant with one whose key says something else. */
  predicate TiesSayTheSame(day: WorkDayContext, punches: seq<Punch>) {
    forall p, q :: p in punches && q in punches && p.at == q.at && day.window.from <= p.at < day.window.to ==>
                     IsEntry(p.kind) == IsEntry(q.kind)
  }

  /** Enough under any policy: as when no two punches of the day share an instant. */
  lemma SameKeyIsHarmless(day: WorkDayContext, punches: seq<Punch>, policy: Policy)
    requires TiesSayTheSame(day, punches)
    ensures OrderHarmless(day, punches, policy)
  {
    var kept := Selected(day, punches, policy).kept;
    KeptMembers(day, punches, policy);
    hide Selected, Readings;
    forall i, p | 0 <= i < |kept| && p in punches ensures ReadsLike(kept, i, p) {
      KeptInWindow(day, punches, policy, i);
      ReadingAt(kept, i);
      assert kept[i] in punches;
    }
  }

  /** And needed, when no press counts as double. */
  lemma SameKeyExactly(day: WorkDayContext, punches: seq<Punch>, policy: Policy)
    requires policy.duplicatePunchWindowSeconds == 0 && policy.punchPairing == DEVICE_TYPE
    ensures OrderHarmless(day, punches, policy) <==> TiesSayTheSame(day, punches)
  {
    hide Selected, ReadsLike;
    if TiesSayTheSame(day, punches) {
      SameKeyIsHarmless(day, punches, policy);
    } else {
      var p, q :| p in punches && q in punches && p.at == q.at && day.window.from <= p.at < day.window.to
                  && IsEntry(p.kind) != IsEntry(q.kind);
      FrontedIsListing(punches, p, q);
      FrontedIsListing(punches, q, p);
      FrontedKept(day, punches, p, q, policy);
      FrontedKept(day, punches, q, p, policy);
      var before := Dropped(SortedBefore(punches, day.window, p.at), 0).kept;
      var x, y := Fronted(punches, p, q), Fronted(punches, q, p);
      ReadsOnTwo(before, Selected(day, x, policy).kept, Selected(day, y, policy).kept, p, q);
      if TiesReadAlike(day, punches, policy) {
        TiesKeepReadings(day, punches, x, policy);
        TiesKeepReadings(day, punches, y, policy);
      }
    }
  }
}
