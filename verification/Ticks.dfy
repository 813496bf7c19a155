/** 32-bit millisecond time. Every rule of the decoder is written once, over a `Clock`:
    `Wrapping` is the arithmetic of the firmware (uint32 differences and int32 comparisons),
    `Unbounded` is real time, in which a timestamp is never reduced. */
module Ticks {
  const WRAP: int := 0x1_0000_0000
  const HALF: int := 0x8000_0000
  const MAX_DURATION_MS: int := 0x7fff_ffff

  type Tick = t: int | 0 <= t < WRAP
  type Duration = d: int | 0 <= d < WRAP

  datatype Clock = Wrapping | Unbounded

  function Wrap(t: int): Tick {
    t % WRAP
  }

  /** The value a uint32 difference has once it is read as an int32. */
  function Signed(t: Tick): int {
    if t < HALF then t else t - WRAP
  }

  /** `now - since`. */
  function Age(clock: Clock, now: int, since: int): int {
    if clock.Wrapping? then (now - since) % WRAP else now - since
  }

  /** `since + duration`. */
  function After(clock: Clock, since: int, duration: int): int {
    if clock.Wrapping? then (since + duration) % WRAP else since + duration
  }

  /** How far `candidate` lies ahead of `now`; negative when it lies behind. */
  function Ahead(clock: Clock, now: int, candidate: int): int {
    if clock.Wrapping? then Signed((candidate - now) % WRAP) else candidate - now
  }

  predicate IsFuture(clock: Clock, now: int, candidate: int) {
    Ahead(clock, now, candidate) > 0
  }

  datatype Deadline = NoDeadline | At(at: int)

  /** Keeps the earlier of two instants, ignoring a candidate that is not in the future. */
  function Consider(clock: Clock, now: int, candidate: int, deadline: Deadline): Deadline {
    if !IsFuture(clock, now, candidate) then deadline
    else if deadline.NoDeadline? || Ahead(clock, deadline.at, candidate) < 0 then At(candidate)
    else deadline
  }

  function ConsiderDeadline(clock: Clock, now: int, other: Deadline, deadline: Deadline): Deadline {
    if other.At? then Consider(clock, now, other.at, deadline) else deadline
  }

  /** The wake-up left after considering every candidate in order. */
  function Earliest(clock: Clock, now: int, candidates: seq<int>): Deadline {
    if candidates == [] then NoDeadline
    else Consider(clock, now, candidates[|candidates| - 1],
                  Earliest(clock, now, candidates[..|candidates| - 1]))
  }

  /** What a list of candidates asks for: a listed instant, strictly ahead, and none listed nearer. */
  ghost predicate IsEarliest(clock: Clock, now: int, candidates: seq<int>, deadline: Deadline) {
    match deadline
    case NoDeadline => forall c | c in candidates :: !IsFuture(clock, now, c)
    case At(at) =>
      && at in candidates
      && IsFuture(clock, now, at)
      && forall c | c in candidates && IsFuture(clock, now, c) :: Ahead(clock, now, at) <= Ahead(clock, now, c)
  }

  ghost predicate AllTicks(candidates: seq<int>) {
    forall i | 0 <= i < |candidates| :: 0 <= candidates[i] < WRAP
  }

  ghost predicate ProperTimes(clock: Clock, candidates: seq<int>) {
    clock.Wrapping? ==> AllTicks(candidates)
  }

  /** Two instants ahead of `now` compare with each other as their distances from `now` do,
      even when the comparison wraps. */
  lemma AheadCompares(clock: Clock, now: int, a: int, b: int)
    requires IsFuture(clock, now, a) && IsFuture(clock, now, b)
    ensures Ahead(clock, b, a) < 0 <==> Ahead(clock, now, a) < Ahead(clock, now, b)
  {
    if clock.Wrapping? {
      var x, y := (a - now) % WRAP, (b - now) % WRAP;
      assert (a - b) % WRAP == (x - y) % WRAP;
    }
  }

  lemma SameDistanceSameTick(clock: Clock, now: int, a: int, b: int)
    requires clock.Wrapping? ==> 0 <= a < WRAP && 0 <= b < WRAP
    requires Ahead(clock, now, a) == Ahead(clock, now, b)
    ensures a == b
  {
  }

  /** The running comparison of `consider_deadline` finds the true minimum. */
  lemma {:induction false} EarliestIsMinimum(clock: Clock, now: int, candidates: seq<int>)
    ensures IsEarliest(clock, now, candidates, Earliest(clock, now, candidates))
  {
    if candidates != [] {
      var n := |candidates| - 1;
      var rest, last := candidates[..n], candidates[n];
      EarliestIsMinimum(clock, now, rest);
      assert candidates == rest + [last];
      var before := Earliest(clock, now, rest);
      if IsFuture(clock, now, last) && before.At? {
        AheadCompares(clock, now, last, before.at);
      }
    }
  }

  /** A list has only one earliest instant, so any other way of finding it agrees. */
  lemma EarliestIsUnique(clock: Clock, now: int, candidates: seq<int>, a: Deadline, b: Deadline)
    requires ProperTimes(clock, candidates)
    requires IsEarliest(clock, now, candidates, a) && IsEarliest(clock, now, candidates, b)
    ensures a == b
  {
    if a.At? && b.At? {
      SameDistanceSameTick(clock, now, a.at, b.at);
    }
  }

  /** Only which instants are listed matters, not their order or how often they are listed. */
  lemma EarliestOfMembers(clock: Clock, now: int, a: seq<int>, b: seq<int>)
    requires ProperTimes(clock, a) && ProperTimes(clock, b)
    requires forall c :: c in a <==> c in b
    ensures Earliest(clock, now, a) == Earliest(clock, now, b)
  {
    EarliestIsMinimum(clock, now, a);
    EarliestIsMinimum(clock, now, b);
    assert IsEarliest(clock, now, a, Earliest(clock, now, b));
    EarliestIsUnique(clock, now, a, Earliest(clock, now, a), Earliest(clock, now, b));
  }

  /** Reducing two lists separately and then comparing the two winners loses nothing. */
  lemma EarliestOfParts(clock: Clock, now: int, left: seq<int>, right: seq<int>)
    requires ProperTimes(clock, left + right)
    ensures Earliest(clock, now, left + right)
         == ConsiderDeadline(clock, now, Earliest(clock, now, right), Earliest(clock, now, left))
  {
    var l, r := Earliest(clock, now, left), Earliest(clock, now, right);
    var both := ConsiderDeadline(clock, now, r, l);
    EarliestIsMinimum(clock, now, left);
    EarliestIsMinimum(clock, now, right);
    EarliestIsMinimum(clock, now, left + right);
    if l.At? && r.At? {
      AheadCompares(clock, now, r.at, l.at);
    }
    assert IsEarliest(clock, now, left + right, both);
    EarliestIsUnique(clock, now, left + right, both, Earliest(clock, now, left + right));
  }

  /** Real age below one wrap is what the uint32 difference of the reduced times shows. */
  lemma WrappedAge(now: int, since: int)
    requires 0 <= now - since < WRAP
    ensures Age(Wrapping, Wrap(now), Wrap(since)) == Age(Unbounded, now, since)
  {
    assert (Wrap(now) - Wrap(since)) % WRAP == (now - since) % WRAP;
  }

  /** Real distance within half a wrap is what the int32 comparison of the reduced times shows. */
  lemma WrappedAhead(now: int, candidate: int)
    requires -HALF <= candidate - now < HALF
    ensures Ahead(Wrapping, Wrap(now), Wrap(candidate)) == Ahead(Unbounded, now, candidate)
  {
    assert (Wrap(candidate) - Wrap(now)) % WRAP == (candidate - now) % WRAP;
  }

  lemma WrappedAfter(since: int, duration: int)
    ensures After(Wrapping, Wrap(since), duration) == Wrap(After(Unbounded, since, duration))
  {
  }

  function WrapAll(times: seq<int>): (wrapped: seq<int>)
    ensures |wrapped| == |times|
  {
    seq(|times|, i requires 0 <= i < |times| => Wrap(times[i]))
  }

  function WrapDeadline(deadline: Deadline): Deadline {
    if deadline.At? then At(Wrap(deadline.at)) else NoDeadline
  }

  ghost predicate NearEnough(now: int, candidates: seq<int>) {
    forall i | 0 <= i < |candidates| :: -HALF <= candidates[i] - now < HALF
  }

  /** The earliest of reduced candidates is the reduced earliest, while all lie within half a wrap. */
  lemma {:induction false} WrappedEarliest(now: int, candidates: seq<int>)
    requires NearEnough(now, candidates)
    ensures Earliest(Wrapping, Wrap(now), WrapAll(candidates))
         == WrapDeadline(Earliest(Unbounded, now, candidates))
  {
    if candidates != [] {
      var n := |candidates| - 1;
      var last := candidates[n];
      WrappedEarliest(now, candidates[..n]);
      assert WrapAll(candidates)[..n] == WrapAll(candidates[..n]);
      WrappedAhead(now, last);
      var before := Earliest(Unbounded, now, candidates[..n]);
      EarliestIsMinimum(Unbounded, now, candidates[..n]);
      if before.At? && IsFuture(Unbounded, now, last) {
        var i :| 0 <= i < n && candidates[i] == before.at;
        WrappedAhead(before.at, last);
      }
    }
  }
}
