/**
 From the punches of a day to its work segments: sorting, double presses, the two pairings, and
 the milliseconds worked and paused.
 */
module PunchPairing {
  import opened AttendanceTypes
  import opened Sorting
  import opened Wrappers

  function At(p: Punch): int {
    p.at
  }

  // ---------------------------------------------------------------- the punches that count

  function Within(punches: seq<Punch>, w: Window): seq<Punch> {
    if punches == [] then []
    else if w.from <= punches[0].at < w.to then [punches[0]] + Within(punches[1..], w)
    else Within(punches[1..], w)
  }

  datatype Selection = Selection(kept: seq<Punch>, ignored: seq<Punch>)

  /** Whether a punch repeats the last one kept. */
  predicate Repeats(kept: seq<Punch>, p: Punch, windowSeconds: nat) {
    kept != [] && p.at - kept[|kept| - 1].at < windowSeconds * 1000
  }

  function Dropped(ordered: seq<Punch>, windowSeconds: nat): Selection {
    if ordered == [] then Selection([], [])
    else
      var s := Dropped(ordered[..|ordered| - 1], windowSeconds);
      var p := ordered[|ordered| - 1];
      if Repeats(s.kept, p, windowSeconds) then s.(ignored := s.ignored + [p]) else s.(kept := s.kept + [p])
  }

  method DropDoublePresses(ordered: seq<Punch>, windowSeconds: nat) returns (kept: seq<Punch>, ignored: seq<Punch>)
    ensures Selection(kept, ignored) == Dropped(ordered, windowSeconds)
  {
    kept, ignored := [], [];
    for i := 0 to |ordered|
      invariant Selection(kept, ignored) == Dropped(ordered[..i], windowSeconds)
    {
      assert ordered[..i + 1][..i] == ordered[..i];
      var punch := ordered[i];
      if kept != [] && punch.at - kept[|kept| - 1].at < windowSeconds * 1000 {
        ignored := ignored + [punch];
      } else {
        kept := kept + [punch];
      }
    }
    assert ordered[..|ordered|] == ordered;
  }

  function Selected(day: WorkDayContext, punches: seq<Punch>, policy: Policy): Selection {
    Dropped(SortBy(Within(punches, day.window), At), policy.duplicatePunchWindowSeconds)
  }

  lemma DroppedOneMore(s: seq<Punch>, p: Punch, windowSeconds: nat)
    ensures var before := Dropped(s, windowSeconds);
            Dropped(s + [p], windowSeconds)
            == if Repeats(before.kept, p, windowSeconds) then Selection(before.kept, before.ignored + [p])
            else Selection(before.kept + [p], before.ignored)
  {
    assert (s + [p])[..|s|] == s;
  }

  lemma DroppedNone(windowSeconds: nat)
    ensures Dropped([], windowSeconds) == Selection([], [])
  {
  }

  lemma DroppedKeepsAll(ordered: seq<Punch>, windowSeconds: nat)
    ensures var s := Dropped(ordered, windowSeconds);
            && multiset(s.kept) + multiset(s.ignored) == multiset(ordered)
            && (s.kept == [] <==> ordered == [])
  {
    DroppedSome(ordered, windowSeconds);
    DroppedBag(ordered, windowSeconds);
  }

  /** Kept and ignored together are these punches. */
  predicate MadeOf(s: Selection, punches: seq<Punch>) {
    multiset(s.kept) + multiset(s.ignored) == multiset(punches)
  }

  lemma {:induction false} DroppedBag(ordered: seq<Punch>, windowSeconds: nat)
    ensures MadeOf(Dropped(ordered, windowSeconds), ordered)
  {
    hide Dropped, MadeOf, Repeats;
    if ordered == [] {
      DroppedNone(windowSeconds);
      NoneMadeOf();
    } else {
      var before, p := ordered[..|ordered| - 1], ordered[|ordered| - 1];
      assert before + [p] == ordered;
      DroppedBag(before, windowSeconds);
      DroppedOneMore(before, p, windowSeconds);
      OneMoreMadeOf(Dropped(before, windowSeconds), before, p);
    }
  }

  lemma NoneMadeOf()
    ensures MadeOf(Selection([], []), [])
  {
  }

  lemma OneMoreMadeOf(s: Selection, punches: seq<Punch>, p: Punch)
    requires MadeOf(s, punches)
    ensures MadeOf(s.(kept := s.kept + [p]), punches + [p])
    ensures MadeOf(s.(ignored := s.ignored + [p]), punches + [p])
  {
  }

  /** The first punch is always kept. */
  lemma {:induction false} DroppedSome(ordered: seq<Punch>, windowSeconds: nat)
    ensures Dropped(ordered, windowSeconds).kept == [] <==> ordered == []
  {
    hide Dropped;
    if ordered == [] {
      DroppedNone(windowSeconds);
    } else {
      var before, p := ordered[..|ordered| - 1], ordered[|ordered| - 1];
      assert before + [p] == ordered;
      DroppedSome(before, windowSeconds);
      DroppedOneMore(before, p, windowSeconds);
    }
  }

  predicate Spaced(kept: seq<Punch>, windowSeconds: nat) {
    forall i :: 0 < i < |kept| ==> kept[i].at - kept[i - 1].at >= windowSeconds * 1000
  }

  predicate Close(kept: seq<Punch>, p: Punch, windowSeconds: nat) {
    exists i :: 0 <= i < |kept| && 0 <= p.at - kept[i].at < windowSeconds * 1000
  }

  lemma CloseGrows(kept: seq<Punch>, more: seq<Punch>, p: Punch, windowSeconds: nat)
    requires Close(kept, p, windowSeconds)
    ensures Close(kept + more, p, windowSeconds)
  {
    var i :| 0 <= i < |kept| && 0 <= p.at - kept[i].at < windowSeconds * 1000;
    assert (kept + more)[i] == kept[i];
  }

  /** The promise of dropping: kept punches keep their distance, and each one dropped was too close to one kept. */
  lemma {:induction false} DroppedSpacing(ordered: seq<Punch>, windowSeconds: nat)
    requires Ordered(ordered, At)
    ensures var s := Dropped(ordered, windowSeconds);
            && Spaced(s.kept, windowSeconds)
            && (s.kept != [] ==> ordered != [] && s.kept[|s.kept| - 1].at <= ordered[|ordered| - 1].at)
            && forall i :: 0 <= i < |s.ignored| ==> Close(s.kept, s.ignored[i], windowSeconds)
  {
    if ordered != [] {
      var n := |ordered| - 1;
      DroppedSpacing(ordered[..n], windowSeconds);
      var s, p := Dropped(ordered[..n], windowSeconds), ordered[n];
      if n > 0 {
        assert At(ordered[n - 1]) <= At(ordered[n]);
      }
      hide Ordered;
      if Repeats(s.kept, p, windowSeconds) {
        assert Close(s.kept, p, windowSeconds);
      } else {
        forall i | 0 <= i < |s.ignored| ensures Close(s.kept + [p], s.ignored[i], windowSeconds) {
          CloseGrows(s.kept, [p], s.ignored[i], windowSeconds);
        }
      }
    }
  }

  /** The same on the times alone. */
  function DroppedTimes(times: seq<int>, windowSeconds: nat): seq<int> {
    if times == [] then []
    else
      NextTime(DroppedTimes(times[..|times| - 1], windowSeconds), times[|times| - 1], windowSeconds)
  }

  lemma {:induction false} DroppedByTime(ordered: seq<Punch>, windowSeconds: nat)
    ensures var s := Dropped(ordered, windowSeconds);
            && Keys(s.kept, At) == DroppedTimes(Keys(ordered, At), windowSeconds)
            && |s.kept| + |s.ignored| == |ordered|
  {
    if ordered != [] {
      var n := |ordered| - 1;
      DroppedByTime(ordered[..n], windowSeconds);
      KeysLast(ordered);
      NextByTime(Dropped(ordered[..n], windowSeconds).kept, ordered[n], windowSeconds);
      hide Keys, Repeats;
    }
  }

  /** What one more time does to the kept ones. */
  function NextTime(kept: seq<int>, t: int, windowSeconds: nat): seq<int> {
    if kept != [] && t - kept[|kept| - 1] < windowSeconds * 1000 then kept else kept + [t]
  }

  lemma NextByTime(kept: seq<Punch>, p: Punch, windowSeconds: nat)
    ensures Keys(if Repeats(kept, p, windowSeconds) then kept else kept + [p], At)
         == NextTime(Keys(kept, At), p.at, windowSeconds)
  {
    KeysConcat(kept, [p], At);
    assert Keys([p], At) == [p.at];
  }

  lemma KeysLast(s: seq<Punch>)
    requires s != []
    ensures var n, k := |s| - 1, Keys(s, At);
            |k| == |s| && k[..n] == Keys(s[..n], At) && k[n] == s[n].at && k == k[..n] + [k[n]]
  {
  }

  lemma {:induction false} DroppedTimesAscend(times: seq<int>, windowSeconds: nat)
    requires Ascending(times)
    ensures var kept := DroppedTimes(times, windowSeconds);
            Ascending(kept) && (kept != [] ==> times != [] && kept[|kept| - 1] <= times[|times| - 1])
  {
    if times != [] {
      var n := |times| - 1;
      DroppedTimesAscend(times[..n], windowSeconds);
    }
  }

  // ---------------------------------------------------------------- pairs

  datatype PunchPair = PunchPair(entry: Option<Punch>, exit: Option<Punch>)

  /** in, out, in, out, whatever key was pressed. */
  function Alternating(punches: seq<Punch>): seq<PunchPair> {
    if punches == [] then []
    else if |punches| == 1 then [PunchPair(Some(punches[0]), None)]
    else [PunchPair(Some(punches[0]), Some(punches[1]))] + Alternating(punches[2..])
  }

  method PairSequentially(punches: seq<Punch>) returns (pairs: seq<PunchPair>)
    ensures pairs == Alternating(punches)
  {
    pairs := [];
    var i := 0;
    while i < |punches|
      invariant 0 <= i <= |punches| + 1
      invariant pairs + Alternating(punches[Min(i, |punches|)..]) == Alternating(punches)
    {
      var rest := punches[i..];
      var pair := PunchPair(Some(punches[i]), if i + 1 < |punches| then Some(punches[i + 1]) else None);
      assert Alternating(rest) == [pair] + Alternating(punches[Min(i + 2, |punches|)..]) by {
        if i + 1 < |punches| {
          assert rest[2..] == punches[i + 2..];
        }
      }
      assert pairs + ([pair] + Alternating(punches[Min(i + 2, |punches|)..]))
          == pairs + [pair] + Alternating(punches[Min(i + 2, |punches|)..]);
      pairs := pairs + [pair];
      i := i + 2;
    }
    assert pairs + [] == pairs;
  }

  /** What the key pressed says; None when it says nothing. */
  function IsEntry(kind: PunchType): Option<bool> {
    match kind
    case CHECK_IN => Some(true)
    case BREAK_IN => Some(true)
    case CHECK_OUT => Some(false)
    case BREAK_OUT => Some(false)
    case UNKNOWN => None
  }

  datatype Pressing = Pressing(pairs: seq<PunchPair>, open: Option<Punch>)

  function Pressed(s: Pressing, p: Punch): Pressing {
    var entry := if IsEntry(p.kind).Some? then IsEntry(p.kind).value else s.open == None;
    if entry then
      Pressing(if s.open.Some? then s.pairs + [PunchPair(s.open, None)] else s.pairs, Some(p))
    else
      Pressing(s.pairs + [PunchPair(s.open, Some(p))], None)
  }

  function PressedAll(punches: seq<Punch>): Pressing {
    if punches == [] then Pressing([], None)
    else Pressed(PressedAll(punches[..|punches| - 1]), punches[|punches| - 1])
  }

  function ByType(punches: seq<Punch>): seq<PunchPair> {
    var s := PressedAll(punches);
    if s.open.Some? then s.pairs + [PunchPair(s.open, None)] else s.pairs
  }

  method PairByPunchType(punches: seq<Punch>) returns (pairs: seq<PunchPair>)
    ensures pairs == ByType(punches)
  {
    pairs := [];
    var open: Option<Punch> := None;
    for i := 0 to |punches|
      invariant Pressing(pairs, open) == PressedAll(punches[..i])
    {
      assert punches[..i + 1][..i] == punches[..i];
      var punch := punches[i];
      var direction := IsEntry(punch.kind);
      if direction == Some(true) || (direction == None && open == None) {
        if open.Some? {
          pairs := pairs + [PunchPair(open, None)];
        }
        open := Some(punch);
      } else {
        pairs := pairs + [PunchPair(open, Some(punch))];
        open := None;
      }
    }
    assert punches[..|punches|] == punches;
    if open.Some? {
      pairs := pairs + [PunchPair(open, None)];
    }
  }

  /** Alternating, pair by pair: the even punches are entries, each with the punch after it. */
  lemma {:induction false} AlternatingAt(punches: seq<Punch>, i: nat)
    requires 2 * i < |punches|
    ensures |Alternating(punches)| == (|punches| + 1) / 2
    ensures Alternating(punches)[i].entry == Some(punches[2 * i])
    ensures Alternating(punches)[i].exit == if 2 * i + 1 < |punches| then Some(punches[2 * i + 1]) else None
  {
    if |punches| > 2 {
      AlternatingAt(punches[2..], if i > 0 then i - 1 else 0);
    }
  }

  predicate SaysIn(p: Punch) {
    p.kind == CHECK_IN || p.kind == BREAK_IN
  }

  predicate SaysOut(p: Punch) {
    p.kind == CHECK_OUT || p.kind == BREAK_OUT
  }

  /** No pair is empty, no entry says out and no exit says in; an exit that says nothing closes an entry. */
  predicate PairSays(pair: PunchPair) {
    && (pair.entry.Some? || pair.exit.Some?)
    && (pair.entry.Some? ==> !SaysOut(pair.entry.value))
    && (pair.exit.Some? ==> !SaysIn(pair.exit.value))
    && (pair.exit.Some? && pair.entry.None? ==> SaysOut(pair.exit.value))
  }

  /** An entry left open is followed by one that says in: nothing else would have left it so. */
  predicate FollowsSaying(before: PunchPair, after: PunchPair) {
    before.exit.None? ==> after.entry.Some? && SaysIn(after.entry.value)
  }

  predicate AllSay(pairs: seq<PunchPair>) {
    && (forall i :: 0 <= i < |pairs| ==> PairSays(pairs[i]))
    && (forall i :: 0 < i < |pairs| ==> FollowsSaying(pairs[i - 1], pairs[i]))
  }

  lemma AllSayAppend(pairs: seq<PunchPair>, pair: PunchPair)
    requires AllSay(pairs) && PairSays(pair) && (pairs != [] ==> FollowsSaying(pairs[|pairs| - 1], pair))
    ensures AllSay(pairs + [pair])
  {
    hide PairSays, FollowsSaying;
  }

  /** What holds while punches are being paired: the open punch may follow the pairs so far. */
  predicate PressingSays(s: Pressing) {
    && AllSay(s.pairs)
    && (s.open.Some? ==> !SaysOut(s.open.value))
    && (s.pairs != [] && s.pairs[|s.pairs| - 1].exit.None? ==> s.open.Some? && SaysIn(s.open.value))
  }

  lemma PressedSays(s: Pressing, p: Punch)
    requires PressingSays(s)
    ensures PressingSays(Pressed(s, p))
  {
    var pair := if Pressed(s, p).open.Some? then PunchPair(s.open, None) else PunchPair(s.open, Some(p));
    if Pressed(s, p).pairs != s.pairs {
      assert Pressed(s, p).pairs == s.pairs + [pair];
      AllSayAppend(s.pairs, pair);
    }
    hide AllSay;
  }

  lemma {:induction false} PressedAllSays(punches: seq<Punch>)
    ensures PressingSays(PressedAll(punches))
  {
    if punches != [] {
      hide PressingSays, Pressed;
      PressedAllSays(punches[..|punches| - 1]);
      PressedSays(PressedAll(punches[..|punches| - 1]), punches[|punches| - 1]);
    }
  }

  /** Pairing by key does what the keys say, and pairs whatever they leave open to pair. */
  lemma ByTypeSays(punches: seq<Punch>)
    ensures AllSay(ByType(punches))
  {
    var s := PressedAll(punches);
    PressedAllSays(punches);
    if s.open.Some? {
      AllSayAppend(s.pairs, PunchPair(s.open, None));
    }
    hide AllSay;
  }

  function Paired(punches: seq<Punch>, pairing: Pairing): seq<PunchPair> {
    if pairing == SEQUENTIAL then Alternating(punches) else ByType(punches)
  }

  function One(p: Option<Punch>): seq<Punch> {
    if p.Some? then [p.value] else []
  }

  /** The punches of the pairs, in the order of the pairs. */
  function Flatten(pairs: seq<PunchPair>): seq<Punch> {
    if pairs == [] then []
    else Flatten(pairs[..|pairs| - 1]) + (One(pairs[|pairs| - 1].entry) + One(pairs[|pairs| - 1].exit))
  }

  lemma FlattenAppend(pairs: seq<PunchPair>, pair: PunchPair)
    ensures Flatten(pairs + [pair]) == Flatten(pairs) + (One(pair.entry) + One(pair.exit))
  {
    assert (pairs + [pair])[..|pairs|] == pairs;
  }

  lemma PressedKeeps(s: Pressing, p: Punch)
    ensures var r := Pressed(s, p); Flatten(r.pairs) + One(r.open) == (Flatten(s.pairs) + One(s.open)) + [p]
  {
    FlattenAppend(s.pairs, PunchPair(s.open, None));
    FlattenAppend(s.pairs, PunchPair(s.open, Some(p)));
    hide Flatten;
    var r := Pressed(s, p);
    if r.open.Some? && s.open.Some? {
      assert Flatten(r.pairs) == Flatten(s.pairs) + One(s.open);
    }
  }

  /** What was paired, and the punch still open, are the punches so far. */
  predicate Keeps(s: Pressing, punches: seq<Punch>) {
    Flatten(s.pairs) + One(s.open) == punches
  }

  lemma KeepsNone()
    ensures Keeps(Pressing([], None), [])
  {
  }

  lemma KeepsNext(s: Pressing, punches: seq<Punch>, p: Punch)
    requires Keeps(s, punches)
    ensures Keeps(Pressed(s, p), punches + [p])
  {
    PressedKeeps(s, p);
    hide Flatten, One, Pressed;
  }

  lemma {:induction false} PressedAllKeeps(punches: seq<Punch>)
    ensures Keeps(PressedAll(punches), punches)
  {
    hide Keeps, Pressed;
    if punches == [] {
      KeepsNone();
    } else {
      var n := |punches| - 1;
      PressedAllKeeps(punches[..n]);
      KeepsNext(PressedAll(punches[..n]), punches[..n], punches[n]);
      assert punches[..n] + [punches[n]] == punches;
    }
  }

  /** Pairing by key loses no punch, repeats none and reorders none. */
  lemma ByTypeKeepsPunches(punches: seq<Punch>)
    ensures Flatten(ByType(punches)) == punches
  {
    var s := PressedAll(punches);
    PressedAllKeeps(punches);
    FlattenAppend(s.pairs, PunchPair(s.open, None));
  }

  // ---------------------------------------------------------------- segments

  datatype Segment = Segment(entry: Option<int>, exit: Option<int>)

  predicate IsComplete(s: Segment) {
    s.entry.Some? && s.exit.Some?
  }

  function ToSegment(pair: PunchPair): Segment {
    Segment(if pair.entry.Some? then Some(pair.entry.value.at) else None,
            if pair.exit.Some? then Some(pair.exit.value.at) else None)
  }

  function ToSegments(pairs: seq<PunchPair>): (s: seq<Segment>)
    ensures |s| == |pairs|
    ensures forall i :: 0 <= i < |s| ==> s[i] == ToSegment(pairs[i])
  {
    seq(|pairs|, i requires 0 <= i < |pairs| => ToSegment(pairs[i]))
  }

  /** What alternating makes of bare times. */
  function SegmentsOf(times: seq<int>): seq<Segment> {
    if times == [] then []
    else if |times| == 1 then [Segment(Some(times[0]), None)]
    else [Segment(Some(times[0]), Some(times[1]))] + SegmentsOf(times[2..])
  }

  lemma {:induction false} AlternatingByTime(punches: seq<Punch>)
    ensures ToSegments(Alternating(punches)) == SegmentsOf(Keys(punches, At))
  {
    if |punches| > 1 {
      AlternatingByTime(punches[2..]);
      assert Keys(punches, At)[2..] == Keys(punches[2..], At);
    }
  }

  function Length(s: Segment): int {
    if IsComplete(s) then s.exit.value - s.entry.value else 0
  }

  function WorkedMs(segments: seq<Segment>): int {
    if segments == [] then 0 else Length(segments[0]) + WorkedMs(segments[1..])
  }

  function Gap(before: Segment, after: Segment): nat {
    if before.exit.Some? && after.entry.Some? then Max(0, after.entry.value - before.exit.value) else 0
  }

  function Gaps(segments: seq<Segment>): nat {
    if |segments| < 2 then 0 else Gap(segments[0], segments[1]) + Gaps(segments[1..])
  }

  method GapsBetween(segments: seq<Segment>) returns (total: nat)
    ensures total == Gaps(segments)
  {
    total := 0;
    var i := 1;
    while i < |segments|
      invariant 1 <= i
      invariant i <= |segments| ==> total + Gaps(segments[i - 1..]) == Gaps(segments)
      invariant |segments| < i ==> |segments| == 0 && total == 0
    {
      assert segments[i - 1..][1..] == segments[i..];
      var prevOut, nextIn := segments[i - 1].exit, segments[i].entry;
      if prevOut.Some? && nextIn.Some? {
        total := total + Max(0, nextIn.value - prevOut.value);
      }
      i := i + 1;
    }
  }

  /** Time is conserved: between the first punch and the last, all is work or pause. */
  lemma {:induction false} WorkAndPausesFillTheDay(times: seq<int>)
    requires Ascending(times) && times != []
    ensures WorkedMs(SegmentsOf(times)) + Gaps(SegmentsOf(times)) == times[|times| - 1] - times[0]
  {
    if |times| > 2 {
      assert forall i, j :: 0 <= i < j < |times[2..]| ==>
                              times[2..][i] == times[i + 2] && times[2..][j] == times[j + 2];
      WorkAndPausesFillTheDay(times[2..]);
      var s, rest := SegmentsOf(times), SegmentsOf(times[2..]);
      assert s[1..] == rest;
      assert rest[0].entry == Some(times[2]);
    } else if |times| == 2 {
      assert SegmentsOf(times)[1..] == [];
    }
  }

  lemma {:induction false} OneMoreSegment(segments: seq<Segment>, s: Segment)
    ensures WorkedMs(segments + [s]) == WorkedMs(segments) + Length(s)
    ensures Gaps(segments + [s])
         == Gaps(segments) + if segments == [] then 0 else Gap(segments[|segments| - 1], s)
  {
    hide Length, Gap;
    if segments == [] {
      assert [] + [s] == [s] && [s][1..] == [];
    } else {
      OneMoreSegment(segments[1..], s);
      assert (segments + [s])[1..] == segments[1..] + [s];
      if |segments| == 1 {
        assert (segments + [s])[1..] == [s];
      }
    }
  }

  /** No pair is empty. */
  predicate Told(pairs: seq<PunchPair>) {
    forall i :: 0 <= i < |pairs| ==> pairs[i].entry.Some? || pairs[i].exit.Some?
  }

  lemma {:induction false} PressedTold(punches: seq<Punch>)
    ensures Told(PressedAll(punches).pairs)
  {
    if punches != [] {
      PressedTold(punches[..|punches| - 1]);
    }
  }

  /** Only the first entry and the last exit may be missing. */
  predicate Unbroken(pairs: seq<PunchPair>) {
    forall i :: 0 <= i < |pairs| - 1 ==> Joined(pairs, i)
  }

  predicate Joined(pairs: seq<PunchPair>, i: int)
    requires 0 <= i < |pairs| - 1
  {
    pairs[i].exit.Some? && pairs[i + 1].entry.Some?
  }

  /** Work and pauses of these pairs, and the first and the last of their punches. */
  ghost predicate WithinTheDay(pairs: seq<PunchPair>, punches: seq<Punch>) {
    && punches != []
    && var s, day := ToSegments(pairs), punches[|punches| - 1].at - punches[0].at;
    WorkedMs(s) + Gaps(s) <= day && (Unbroken(pairs) ==> WorkedMs(s) + Gaps(s) == day)
  }

  /** The first and the last punch once a pair's own follow those before. */
  lemma OwnPunches(before: seq<Punch>, p: PunchPair)
    requires p.entry.Some? || p.exit.Some?
    requires Ordered(before + (One(p.entry) + One(p.exit)), At)
    ensures var all := before + (One(p.entry) + One(p.exit));
            var first := if p.entry.Some? then p.entry.value.at else p.exit.value.at;
            var last := if p.exit.Some? then p.exit.value.at else p.entry.value.at;
            && all != [] && all[|all| - 1].at == last && first <= last
            && (before == [] ==> all[0].at == first)
            && (before != [] ==> all[0] == before[0] && before[|before| - 1].at <= first)
  {
    var n, all := |before|, before + (One(p.entry) + One(p.exit));
    if p.entry.Some? && p.exit.Some? {
      assert At(all[n]) <= At(all[n + 1]);
    }
    if n > 0 {
      assert At(all[n - 1]) <= At(all[n]);
    }
  }

  lemma LastOfPairs(pairs: seq<PunchPair>)
    requires Told(pairs) && pairs != []
    ensures var f, p := Flatten(pairs), pairs[|pairs| - 1];
            f != [] && f[|f| - 1] == if p.exit.Some? then p.exit.value else p.entry.value
  {
  }

  lemma OneMorePair(pairs: seq<PunchPair>, p: PunchPair)
    requires Told(pairs + [p])
    ensures Told(pairs) && (p.entry.Some? || p.exit.Some?)
    ensures ToSegments(pairs + [p]) == ToSegments(pairs) + [ToSegment(p)]
    ensures Unbroken(pairs + [p]) ==>
              Unbroken(pairs) && (pairs != [] ==> pairs[|pairs| - 1].exit.Some? && p.entry.Some?)
  {
    var n, more := |pairs|, pairs + [p];
    assert more[n] == p && forall i :: 0 <= i < n ==> more[i] == pairs[i];
    if Unbroken(more) {
      forall i | 0 <= i < n - 1 ensures Joined(pairs, i) {
        assert Joined(more, i);
      }
      assert n > 0 ==> Joined(more, n - 1);
    }
  }

  lemma OneMoreWithin(pairs: seq<PunchPair>, p: PunchPair)
    requires Told(pairs + [p]) && Ordered(Flatten(pairs) + (One(p.entry) + One(p.exit)), At)
    requires pairs != [] ==> WithinTheDay(pairs, Flatten(pairs))
    ensures WithinTheDay(pairs + [p], Flatten(pairs) + (One(p.entry) + One(p.exit)))
  {
    OneMorePair(pairs, p);
    OwnPunches(Flatten(pairs), p);
    OneMoreSegment(ToSegments(pairs), ToSegment(p));
    if pairs != [] {
      LastOfPairs(pairs);
      assert ToSegments(pairs)[|pairs| - 1] == ToSegment(pairs[|pairs| - 1]);
    }
    hide WorkedMs, Gaps, Flatten, Ordered, One, Unbroken, Told, ToSegments;
  }

  lemma {:induction false} PairsWithinTheDay(pairs: seq<PunchPair>)
    requires Told(pairs) && Ordered(Flatten(pairs), At) && pairs != []
    ensures WithinTheDay(pairs, Flatten(pairs))
  {
    var n := |pairs| - 1;
    var p := pairs[n];
    assert pairs == pairs[..n] + [p];
    hide WithinTheDay;
    if n > 0 {
      var before := Flatten(pairs[..n]);
      assert forall i :: 0 <= i < |before| ==> before[i] == Flatten(pairs)[i];
      assert forall i, j :: 0 <= i < j < |before| ==> At(before[i]) <= At(before[j]);
      PairsWithinTheDay(pairs[..n]);
    }
    OneMoreWithin(pairs[..n], p);
  }

  /** Pairing by key, too, no time counts twice, and none is lost but next to a missing punch. */
  lemma ByTypeWithinTheDay(punches: seq<Punch>)
    requires Ordered(punches, At) && punches != []
    ensures WithinTheDay(ByType(punches), punches)
  {
    ByTypeKeepsPunches(punches);
    PressedTold(punches);
    PairsWithinTheDay(ByType(punches));
  }

  /** No segment ends before it starts. */
  predicate Forward(segments: seq<Segment>) {
    forall i :: 0 <= i < |segments| ==> Length(segments[i]) >= 0
  }

  lemma {:induction false} AlternatingForward(punches: seq<Punch>)
    requires Ordered(punches, At)
    ensures Forward(ToSegments(Alternating(punches)))
  {
    if |punches| > 1 {
      assert forall i, j :: 0 <= i < j < |punches[2..]| ==>
                              At(punches[2..][i]) == At(punches[i + 2]) && At(punches[2..][j]) == At(punches[j + 2]);
      AlternatingForward(punches[2..]);
      var s, rest := ToSegments(Alternating(punches)), ToSegments(Alternating(punches[2..]));
      assert s == [s[0]] + rest;
      assert At(punches[0]) <= At(punches[1]);
    }
  }

  lemma {:induction false} PressedForward(punches: seq<Punch>)
    requires Ordered(punches, At)
    ensures var s := PressedAll(punches);
            && Forward(ToSegments(s.pairs))
            && (s.open.Some? ==> punches != [] && s.open.value.at <= punches[|punches| - 1].at)
  {
    if punches != [] {
      var n := |punches| - 1;
      PressedForward(punches[..n]);
      if n > 0 {
        assert At(punches[n - 1]) <= At(punches[n]);
      }
    }
  }

  /** Either pairing of ordered punches runs forward. */
  lemma PairedForward(punches: seq<Punch>, pairing: Pairing)
    requires Ordered(punches, At)
    ensures Forward(ToSegments(Paired(punches, pairing)))
  {
    if pairing == SEQUENTIAL {
      AlternatingForward(punches);
    } else {
      PressedForward(punches);
    }
  }
}
