/** The statuses of a calculation, and polling for the next one.  Progress is an exact real. */
module Status {
  import opened Wrappers

  datatype Status =
    | WAITING | GENERATING | PENDING | READY
    | CALCULATING(progress: real) | UPLOADING(progress: real)
    | COMPLETED | FAILED(error: string) | CANCELED

  function NextProgress(p: real): (r: real) {
    (p * 100.0 + 1.0001).Floor as real / 100.0
  }

  /** The status to wait for next. */
  function Next(s: Status): (r: Option<Status>) {
    match s
    case WAITING => Some(PENDING)
    case GENERATING => Some(READY)
    case PENDING => Some(READY)
    case READY => Some(CALCULATING(0.0))
    case CALCULATING(p) => Some(if NextProgress(p) < 1.0 then CALCULATING(NextProgress(p)) else UPLOADING(0.0))
    case UPLOADING(p) => Some(if NextProgress(p) < 1.0 then UPLOADING(NextProgress(p)) else COMPLETED)
    case COMPLETED => None
    case FAILED(_) => None
    case CANCELED => None
  }

  function Phase(s: Status): (n: nat) {
    match s
    case WAITING => 0
    case GENERATING => 1
    case PENDING => 2
    case READY => 3
    case CALCULATING(_) => 4
    case UPLOADING(_) => 5
    case COMPLETED => 6
    case FAILED(_) => 6
    case CANCELED => 6
  }

  function Progress(s: Status): (p: real) {
    if s.CALCULATING? || s.UPLOADING? then s.progress else 0.0
  }

  predicate Terminal(s: Status) {
    Phase(s) == 6
  }

  /** A later phase, or more progress in the same one. */
  predicate Below(a: Status, b: Status) {
    Phase(a) < Phase(b) || (Phase(a) == Phase(b) && Progress(a) < Progress(b))
  }

  predicate AtLeast(a: Status, b: Status) {
    Phase(a) < Phase(b) || (Phase(a) == Phase(b) && Progress(a) <= Progress(b))
  }

  // ----- how many changes are left -----

  /** Progress in whole percents, rounded down with the tolerance of the next step. */
  function Percents(p: real): (n: int) {
    (p * 100.0 + 0.0001).Floor
  }

  /** The changes until the phase is over. */
  function Left(p: real): (n: nat)
    ensures n >= 1
  {
    if Percents(p) >= 99 then 1 else 100 - Percents(p)
  }

  /** The changes until there is no next status, if every poll returns just what is asked for. */
  function Changes(s: Status): (n: nat) {
    match s
    case WAITING => 203
    case GENERATING => 202
    case PENDING => 202
    case READY => 201
    case CALCULATING(p) => 100 + Left(p)
    case UPLOADING(p) => Left(p)
    case COMPLETED => 0
    case FAILED(_) => 0
    case CANCELED => 0
  }

  lemma {:induction false} NextProgressIs(p: real)
    ensures NextProgress(p) == (Percents(p) + 1) as real / 100.0 && NextProgress(p) > p
    ensures Percents(NextProgress(p)) == Percents(p) + 1
  {
    var x := p * 100.0 + 0.0001;
    assert (x + 1.0).Floor == x.Floor + 1;
    var q := NextProgress(p);
    assert q * 100.0 == (x.Floor + 1) as real;
    assert (q * 100.0 + 0.0001).Floor == x.Floor + 1;
  }

  /** Each step to the next status uses up exactly one of the changes that are left. */
  lemma {:induction false} OneChangeLess(s: Status)
    ensures Next(s).Some? <==> Changes(s) > 0
    ensures Next(s).Some? <==> !Terminal(s)
    ensures Next(s).Some? ==> Changes(Next(s).value) == Changes(s) - 1 && Below(s, Next(s).value)
  {
    if s.CALCULATING? || s.UPLOADING? {
      NextProgressIs(s.progress);
      assert Percents(0.0) == 0;
    } else if s.READY? {
      assert Percents(0.0) == 0;
    }
  }

  predicate InRange(s: Status) {
    0.0 <= Progress(s) <= 1.0
  }

  lemma {:induction false} AtMost203(s: Status)
    requires InRange(s)
    ensures Changes(s) <= 203
  {
    if s.CALCULATING? || s.UPLOADING? { assert Percents(s.progress) >= 0; }
  }

  /** A status further up leaves fewer changes. */
  lemma {:induction false} FewerFurtherUp(a: Status, b: Status)
    requires AtLeast(a, b) && Progress(b) >= 0.0
    ensures Changes(b) <= Changes(a)
  {
    if b.CALCULATING? || b.UPLOADING? {
      assert Percents(b.progress) >= 0;
      if Phase(a) == Phase(b) { PercentsMonotone(a.progress, b.progress); }
    }
  }

  lemma {:induction false} PercentsMonotone(p: real, q: real)
    requires p <= q
    ensures Percents(p) <= Percents(q)
  {
  }

  lemma {:induction false} BelowAtLeast(a: Status, b: Status, c: Status)
    requires Below(a, b) && AtLeast(b, c)
    ensures Below(a, c)
  {
  }

  // ----- climbing -----

  /** The statuses from here on, if every poll returns just what is asked for. */
  function Climb(s: Status): (r: seq<Status>)
    decreases Changes(s)
  {
    OneChangeLess(s);
    if Next(s).None? then [s] else [s] + Climb(Next(s).value)
  }

  ghost predicate Climbs(r: seq<Status>) {
    forall i :: 0 <= i < |r| - 1 ==> Below(r[i], r[i + 1])
  }

  /** The climb is strict, ends with the only terminal status, and takes exactly as many changes
      as are left: at most 203 if progress is between 0 and 1. */
  lemma {:induction false} ClimbReachesTheTop(s: Status)
    ensures var r := Climb(s);
            && |r| == Changes(s) + 1 && r[0] == s && Climbs(r)
            && (forall i :: 0 <= i < |r| ==> (Terminal(r[i]) <==> i == |r| - 1))
            && (InRange(s) ==> |r| <= 204)
    decreases Changes(s)
  {
    OneChangeLess(s);
    if InRange(s) { AtMost203(s); }
    if Next(s).Some? {
      var rest := Climb(Next(s).value);
      ClimbReachesTheTop(Next(s).value);
      var r := Climb(s);
      assert r == [s] + rest;
      forall i | 0 <= i < |r| - 1 ensures Below(r[i], r[i + 1]) {
        if i > 0 { assert r[i] == rest[i - 1] && r[i + 1] == rest[i]; }
      }
    }
  }

  /** The statuses in the order in which a calculation that waits is asked for them. */
  function Rung(i: nat): (s: Status) {
    if i == 0 then WAITING
    else if i == 1 then PENDING
    else if i == 2 then READY
    else if i <= 102 then CALCULATING((i - 3) as real / 100.0)
    else if i <= 202 then UPLOADING((i - 103) as real / 100.0)
    else COMPLETED
  }

  /** The next progress is the least whole percent above, with a tolerance against rounding. */
  lemma {:induction false} NextWholePercent(p: real) returns (n: int)
    ensures NextProgress(p) == n as real / 100.0 && (n - 1) as real <= p * 100.0 + 0.0001 < n as real
  {
    NextProgressIs(p);
    n := Percents(p) + 1;
  }

  lemma {:induction false} WholePercents(n: nat)
    requires n < 100
    ensures NextProgress(n as real / 100.0) == (n + 1) as real / 100.0
  {
    var x := n as real / 100.0 * 100.0 + 1.0001;
    assert x == n as real + 1.0001;
    assert x.Floor == n + 1;
  }

  lemma {:induction false} NextRung(i: nat)
    requires i < 203
    ensures Next(Rung(i)) == Some(Rung(i + 1))
  {
    if 3 <= i <= 102 { WholePercents(i - 3); }
    if 103 <= i { WholePercents(i - 103); }
  }

  /** From waiting, through every whole percent of calculating and then of uploading. */
  lemma {:induction false} ClimbByRungs(i: nat, k: nat)
    requires i + k <= 203
    ensures |Climb(Rung(i))| > k && Climb(Rung(i))[k] == Rung(i + k)
    decreases k
  {
    if i < 203 {
      NextRung(i);
      if k > 0 { ClimbByRungs(i + 1, k - 1); }
    }
  }

  lemma {:induction false} ClimbFromWaiting(i: nat)
    requires i <= 203
    ensures |Climb(WAITING)| == 204 && Climb(WAITING)[i] == Rung(i)
    ensures Next(GENERATING) == Some(READY) && |Climb(GENERATING)| == 203
  {
    ClimbByRungs(0, i);
    ClimbReachesTheTop(WAITING);
    ClimbReachesTheTop(GENERATING);
  }

  /** Polling until there is no next status.  `poll` is what Thinknode answers to each request:
      the asked status, or one further up. */
  method LongPoll(first: Status, poll: (nat, Status) -> Status) returns (yielded: seq<Status>)
    requires forall k, asked :: AtLeast(asked, poll(k, asked)) && Progress(poll(k, asked)) >= 0.0
    ensures 1 <= |yielded| <= Changes(first) + 1 && yielded[0] == first && Climbs(yielded)
    ensures forall i :: 0 <= i < |yielded| ==> (Terminal(yielded[i]) <==> i == |yielded| - 1)
    ensures forall i :: 0 <= i < |yielded| - 1 ==>
        Next(yielded[i]).Some? && yielded[i + 1] == poll(i, Next(yielded[i]).value)
  {
    var status := first;
    yielded := [status];
    var next := Next(status);
    OneChangeLess(status);
    while next.Some?
      invariant |yielded| >= 1 && yielded[0] == first && yielded[|yielded| - 1] == status && next == Next(status)
      invariant Climbs(yielded) && |yielded| + Changes(status) <= Changes(first) + 1
      invariant Terminal(status) <==> next.None?
      invariant forall i :: 0 <= i < |yielded| - 1 ==> Next(yielded[i]).Some? && !Terminal(yielded[i])
      invariant forall i :: 0 <= i < |yielded| - 1 ==> yielded[i + 1] == poll(i, Next(yielded[i]).value)
      decreases Changes(status)
    {
      OneChangeLess(status);
      var answer := poll(|yielded| - 1, next.value);
      FewerFurtherUp(next.value, answer);
      BelowAtLeast(status, next.value, answer);
      OneChangeLess(answer);
      status := answer;
      yielded := yielded + [status];
      next := Next(status);
    }
  }
}
