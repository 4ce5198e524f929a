/** The round-trip estimator behind the retransmit timeout (sampleRTT in kalay/gobackn.go). Times are nanoseconds. */
module Rtt {

  const MS := 1_000_000
  const RTO_MIN := 250 * MS
  const RTO_MAX := 3000 * MS
  const RTO_INIT := 400 * MS

  datatype Estimate = Estimate(srtt: int, rttvar: int, rto: int)

  /** Go's integer division, which rounds toward zero. */
  function Quo(a: int, d: int): (q: int)
    requires d > 0
  {
    if a >= 0 then a / d else -((-a) / d)
  }

  function Abs(x: int): (r: int)
  {
    if x < 0 then -x else x
  }

  function Clamp(x: int): (r: int)
    ensures RTO_MIN <= r <= RTO_MAX
  {
    if x < RTO_MIN then RTO_MIN else if x > RTO_MAX then RTO_MAX else x
  }

  function Sample(e: Estimate, s: int): (r: Estimate)
  {
    var srtt := if e.srtt == 0 then s else e.srtt + Quo(s - e.srtt, 8);
    var rttvar := if e.srtt == 0 then Quo(s, 2) else e.rttvar + Quo(Abs(e.srtt - s) - e.rttvar, 4);
    Estimate(srtt, rttvar, Clamp(srtt + 4 * rttvar))
  }

  function SampleAll(e: Estimate, samples: seq<int>): (r: Estimate)
  {
    if samples == [] then e
    else Sample(SampleAll(e, samples[..|samples| - 1]), samples[|samples| - 1])
  }

  /** Rounding toward zero never overshoots and never moves the wrong way. */
  lemma QuoBetween(a: int, d: int)
    requires d == 2 || d == 4 || d == 8
    ensures a >= 0 ==> 0 <= Quo(a, d) <= a
    ensures a <= 0 ==> a <= Quo(a, d) <= 0
    ensures Quo(a, d) == 0 <==> Abs(a) < d
  {
  }

  lemma ClampNonExpansive(x: int, y: int)
    ensures Abs(Clamp(x) - Clamp(y)) <= Abs(x - y)
  {
  }

  /** What holds of an estimate fed with samples between lo and hi: unset, or within their range. */
  ghost predicate Within(e: Estimate, lo: int, hi: int) {
    && (e.srtt == 0 || lo <= e.srtt <= hi)
    && 0 <= e.rttvar <= hi
    && RTO_MIN <= e.rto <= RTO_MAX
  }

  /**
   * The update in plain numbers, as in section 2 of RFC 6298: the first sample is the estimate
   * and half of it the variation; later ones weigh an eighth and a quarter, rounded toward the
   * old value; the variation is that from the old estimate; and the timeout is the estimate and
   * four times the variation, held between 250ms and 3s.
   */
  lemma SampleMeans(e: Estimate, s: int)
    requires s >= 0
    ensures var r := Sample(e, s);
            && (e.srtt == 0 ==> r.srtt == s && (s == 2 * r.rttvar || s == 2 * r.rttvar + 1))
            && (e.srtt != 0 ==>
                  && Part(r.srtt - e.srtt, s - e.srtt, 8)
                  && Part(r.rttvar - e.rttvar, (if e.srtt < s then s - e.srtt else e.srtt - s) - e.rttvar, 4))
            && var t := r.srtt + 4 * r.rttvar;
               && (t < 250_000_000 ==> r.rto == 250_000_000) && (t > 3_000_000_000 ==> r.rto == 3_000_000_000)
               && (250_000_000 <= t <= 3_000_000_000 ==> r.rto == t)
  {
    QuoParts(s - e.srtt, 8);
    QuoParts(Abs(e.srtt - s) - e.rttvar, 4);
  }

  /** q is the n-th part of d, rounded toward zero. */
  predicate Part(q: int, d: int, n: nat) {
    if d >= 0 then 0 <= d - n * q < n else 0 <= n * q - d < n
  }

  lemma QuoParts(d: int, n: nat)
    requires n == 2 || n == 4 || n == 8
    ensures Part(Quo(d, n), d, n)
  {
  }

  /** An equal sample takes an eighth off the distance that is left, up to rounding. */
  lemma SampleContracts(e: Estimate, s: int)
    requires e.srtt > 0 && s > 0
    ensures 8 * (Abs(Sample(e, s).srtt - s) - 7) <= 7 * (Abs(e.srtt - s) - 7) || Abs(Sample(e, s).srtt - s) <= 7
  {
    SampleMeans(e, s);
  }

  function Power(b: nat, n: nat): (p: nat)
    ensures b > 0 ==> p > 0
  {
    if n == 0 then 1 else b * Power(b, n - 1)
  }

  /** So n equal samples leave (7/8)^n of it, beyond 7ns. */
  lemma {:induction false} RepeatContracts(e: Estimate, s: int, n: nat)
    requires e.srtt > 0 && s > 0 && Abs(e.srtt - s) >= 7
    ensures Repeat(e, s, n).srtt > 0
    ensures Contracted(Abs(e.srtt - s) - 7, Abs(Repeat(e, s, n).srtt - s) - 7, n)
  {
    if n == 0 {
      ContractedNone(Abs(e.srtt - s) - 7);
    } else {
      var p := Repeat(e, s, n - 1);
      RepeatContracts(e, s, n - 1);
      SampleApproaches(p, s);
      SampleContracts(p, s);
      ContractedOn(Abs(e.srtt - s) - 7, Abs(p.srtt - s) - 7, Abs(Sample(p, s).srtt - s) - 7, n);
    }
  }

  ghost predicate Contracted(x0: int, x: int, n: nat) {
    x * Power(8, n) <= x0 * Power(7, n)
  }

  lemma ContractedNone(x: int)
    ensures Contracted(x, x, 0)
  {
  }

  lemma ContractedOn(x0: int, x: int, x': int, n: nat)
    requires n > 0 && x0 >= 0 && Contracted(x0, x, n - 1) && (8 * x' <= 7 * x || x' <= 0)
    ensures Contracted(x0, x', n)
  {
    if x' <= 0 {
      TimesSigns(-x', Power(8, n));
      TimesSigns(x0, Power(7, n));
    } else {
      SeventhsOn(x0, x, x', Power(8, n - 1), Power(7, n - 1));
    }
  }

  lemma SeventhsOn(x0: int, x: int, x': int, p: nat, q: nat)
    requires x * p <= x0 * q && 8 * x' <= 7 * x
    ensures x' * (8 * p) <= x0 * (7 * q)
  {
    TimesSigns(7 * x - 8 * x', p);
  }

  lemma TimesSigns(a: int, p: nat)
    requires a >= 0
    ensures a * p >= 0
  {
  }

  lemma SampleWithin(e: Estimate, s: int, lo: int, hi: int)
    requires 0 <= lo <= s <= hi && Within(e, lo, hi)
    ensures var r := Sample(e, s); Within(r, lo, hi) && lo <= r.srtt <= hi
  {
    QuoBetween(s, 2);
    QuoBetween(s - e.srtt, 8);
    QuoBetween(Abs(e.srtt - s) - e.rttvar, 4);
  }

  /** Whatever samples in [lo, hi] arrive, srtt stays among them, rttvar below hi and rto in its clamp. */
  lemma {:induction false} SamplesWithin(e: Estimate, samples: seq<int>, lo: int, hi: int)
    requires 0 <= lo <= hi && Within(e, lo, hi)
    requires forall i | 0 <= i < |samples| :: lo <= samples[i] <= hi
    ensures var r := SampleAll(e, samples); Within(r, lo, hi) && (samples != [] ==> lo <= r.srtt <= hi)
  {
    if samples != [] {
      SamplesWithin(e, samples[..|samples| - 1], lo, hi);
      SampleWithin(SampleAll(e, samples[..|samples| - 1]), samples[|samples| - 1], lo, hi);
    }
  }

  // --- convergence under a constant sample -------------------------------------------------

  function Repeat(e: Estimate, s: int, n: nat): (r: Estimate)
  {
    if n == 0 then e else Sample(Repeat(e, s, n - 1), s)
  }

  /** One more sample s brings srtt no further from s, and strictly closer while it is 8ns or more away. */
  lemma SampleApproaches(e: Estimate, s: int)
    requires e.srtt > 0 && s > 0
    ensures var r := Sample(e, s);
            && r.srtt > 0
            && Abs(r.srtt - s) <= Abs(e.srtt - s)
            && (Abs(e.srtt - s) >= 8 ==> Abs(r.srtt - s) < Abs(e.srtt - s))
            && (Abs(e.srtt - s) < 8 ==> r.srtt == e.srtt)
  {
    QuoBetween(s - e.srtt, 8);
  }

  /** srtt has come n nanoseconds closer to s than e had it, or is within 7. */
  ghost predicate Closer(e: Estimate, r: Estimate, s: int, n: int) {
    r.srtt > 0 && (Abs(r.srtt - s) < 8 || Abs(r.srtt - s) <= Abs(e.srtt - s) - n)
  }

  lemma SampleCloser(e: Estimate, p: Estimate, s: int, n: int)
    requires s > 0 && Closer(e, p, s, n)
    ensures Closer(e, Sample(p, s), s, n + 1)
  {
    SampleApproaches(p, s);
  }

  lemma {:induction false} RepeatApproaches(e: Estimate, s: int, n: nat)
    requires e.srtt > 0 && s > 0
    ensures Closer(e, Repeat(e, s, n), s, n)
  {
    if n > 0 {
      RepeatApproaches(e, s, n - 1);
      SampleCloser(e, Repeat(e, s, n - 1), s, n - 1);
    }
  }

  /** srtt is where e has it, and rttvar has fallen by n or is at most 10ns. */
  ghost predicate Calmer(e: Estimate, r: Estimate, n: int) {
    r.srtt == e.srtt && 0 <= r.rttvar && (r.rttvar <= 10 || r.rttvar <= e.rttvar - n)
  }

  lemma SampleCalmer(e: Estimate, p: Estimate, s: int, n: int)
    requires e.srtt > 0 && s > 0 && Abs(e.srtt - s) < 8 && Calmer(e, p, n)
    ensures Calmer(e, Sample(p, s), n + 1)
  {
    SampleApproaches(p, s);
    QuoBetween(Abs(p.srtt - s) - p.rttvar, 4);
  }

  /** Once srtt has settled, rttvar falls until it is within 3ns of the 7ns srtt may be off. */
  lemma {:induction false} RepeatSettles(e: Estimate, s: int, n: nat)
    requires e.srtt > 0 && s > 0 && Abs(e.srtt - s) < 8 && e.rttvar >= 0
    ensures Calmer(e, Repeat(e, s, n), n)
  {
    if n > 0 {
      RepeatSettles(e, s, n - 1);
      SampleCalmer(e, Repeat(e, s, n - 1), s, n - 1);
    }
  }

  /** Neither srtt's distance from s nor rttvar exceeds what e had, save that rttvar may reach that distance. */
  ghost predicate Tamer(e: Estimate, r: Estimate, s: int) {
    && r.srtt > 0 && Abs(r.srtt - s) <= Abs(e.srtt - s)
    && 0 <= r.rttvar && (r.rttvar <= e.rttvar || r.rttvar <= Abs(e.srtt - s))
  }

  /** The new rttvar lies between the old one and the deviation just measured. */
  lemma SampleTamer(e: Estimate, p: Estimate, s: int)
    requires s > 0 && Tamer(e, p, s)
    ensures Tamer(e, Sample(p, s), s)
  {
    SampleApproaches(p, s);
    QuoBetween(Abs(p.srtt - s) - p.rttvar, 4);
  }

  lemma {:induction false} RepeatTamer(e: Estimate, s: int, n: nat)
    requires e.srtt > 0 && s > 0 && e.rttvar >= 0
    ensures Tamer(e, Repeat(e, s, n), s)
  {
    if n > 0 {
      RepeatTamer(e, s, n - 1);
      SampleTamer(e, Repeat(e, s, n - 1), s);
    }
  }

  /** srtt within 7ns of s, rttvar at most 10ns, and the timeout within 47ns of the clamped sample. */
  ghost predicate Converged(r: Estimate, s: int) {
    Abs(r.srtt - s) < 8 && 0 <= r.rttvar <= 10 && Abs(r.rto - Clamp(s)) <= 47
  }

  /**
   * Under a constant positive sample the estimate converges: from any started estimate, after as
   * many samples as srtt is nanoseconds away, and then as many as the larger of that and rttvar,
   * srtt is within 7ns of the sample and no longer moves, and the timeout is the clamped sample
   * to within 47ns.
   */
  lemma {:induction false} ConstantSampleConverges(e: Estimate, s: int, m: nat, n: nat)
    requires e.srtt > 0 && s > 0 && e.rttvar >= 0
    requires m >= Abs(e.srtt - s) && n > 0 && n >= Abs(e.srtt - s) && n >= e.rttvar
    ensures Converged(Repeat(Repeat(e, s, m), s, n), s)
    ensures Repeat(Repeat(e, s, m), s, n).srtt == Repeat(e, s, m).srtt
  {
    RepeatApproaches(e, s, m);
    RepeatTamer(e, s, m);
    ConvergesFrom(e, Repeat(e, s, m), s, m, n);
  }

  lemma {:induction false} ConvergesFrom(e: Estimate, p: Estimate, s: int, m: nat, n: nat)
    requires s > 0 && Closer(e, p, s, m) && Tamer(e, p, s)
    requires m >= Abs(e.srtt - s) && n > 0 && n >= Abs(e.srtt - s) && n >= e.rttvar
    ensures Converged(Repeat(p, s, n), s) && Repeat(p, s, n).srtt == p.srtt
  {
    RepeatSettles(p, s, n);
    SampleTimeout(Repeat(p, s, n - 1), s);
    TimeoutNear(Repeat(p, s, n), s);
  }

  lemma SampleTimeout(e: Estimate, s: int)
    ensures var r := Sample(e, s); r.rto == Clamp(r.srtt + 4 * r.rttvar)
  {
  }

  lemma TimeoutNear(r: Estimate, s: int)
    requires Abs(r.srtt - s) < 8 && 0 <= r.rttvar <= 10 && r.rto == Clamp(r.srtt + 4 * r.rttvar)
    ensures Abs(r.rto - Clamp(s)) <= 47
  {
    ClampNonExpansive(r.srtt + 4 * r.rttvar, s);
  }
}
