/** The adaptive minimum size of UDP questions. */
module QuestionSize {
  import opened Common

  const MaxDNSUDPPacketSize: int := 4096
  const InitialMinQuestionSize: int := 512

  datatype State = State(min: int, average: real)

  /** A moving average of the default age, where zero means no sample yet. */
  function EwmaAdd(value: real, sample: real): real {
    if value == 0.0 then sample else sample * (2.0 / 31.0) + value * (29.0 / 31.0)
  }

  /** Conversion to an integer truncates toward zero. */
  function Truncate(x: real): int { if x >= 0.0 then x.Floor else -((-x).Floor) }

  function Start(): State { State(InitialMinQuestionSize, 0.0) }

  function AfterBlindAdjust(s: State): State {
    var min := if MaxDNSUDPPacketSize - s.min < s.min then MaxDNSUDPPacketSize else s.min * 2;
    State(min, min as real)
  }

  function AfterAdjust(s: State, packetSize: int): State {
    var average := EwmaAdd(s.average, packetSize as real);
    var ma := Truncate(average);
    State(if ma > InitialMinQuestionSize && ma < s.min / 2 then Max(InitialMinQuestionSize, s.min / 2)
          else s.min, average)
  }

  predicate Sane(min: int) { min == 512 || min == 1024 || min == 2048 || min == 4096 }

  class QuestionSizeEstimator {
    var minQuestionSize: int
    var ewma: real

    ghost predicate Valid() reads this { Sane(minQuestionSize) }

    ghost function Value(): State reads this { State(minQuestionSize, ewma) }

    constructor ()
      ensures Valid() && Value() == Start()
    {
      minQuestionSize, ewma := InitialMinQuestionSize, 0.0;
    }

    method BlindAdjust()
      requires Valid()
      modifies this
      ensures Valid() && Value() == AfterBlindAdjust(old(Value()))
    {
      if MaxDNSUDPPacketSize - minQuestionSize < minQuestionSize {
        minQuestionSize := MaxDNSUDPPacketSize;
      } else {
        minQuestionSize := minQuestionSize * 2;
      }
      ewma := minQuestionSize as real;
    }

    method Adjust(packetSize: int)
      requires Valid()
      modifies this
      ensures Valid() && Value() == AfterAdjust(old(Value()), packetSize)
    {
      ewma := EwmaAdd(ewma, packetSize as real);
      var ma, min := Truncate(ewma), minQuestionSize;
      if ma > InitialMinQuestionSize && ma < min / 2 {
        minQuestionSize := Max(InitialMinQuestionSize, min / 2);
      }
    }
  }

  // ---------------------------------------------------------------- runs

  /** What a response tells the estimator: truncated, or its size. */
  datatype Observation = Truncated | Received(size: int)

  function AfterRun(run: seq<Observation>): State {
    if run == [] then Start()
    else
      var s := AfterRun(run[..|run|-1]);
      match run[|run|-1]
      case Truncated => AfterBlindAdjust(s)
      case Received(size) => AfterAdjust(s, size)
  }

  /** Whatever sizes arrive, none below half the minimum, the minimum stands: the
      average cannot fall below the sizes it averages. */
  lemma {:induction false} LargeResponsesKeepMinimum(s: State, sizes: seq<int>)
    requires s.min > 0 && s.average >= (s.min / 2) as real
    requires forall i :: 0 <= i < |sizes| ==> sizes[i] >= s.min / 2
    ensures AfterSizes(s, sizes).min == s.min
    decreases |sizes|
  {
    if sizes != [] {
      var half := s.min / 2;
      var next := AfterAdjust(s, sizes[0]);
      assert next.average >= half as real;
      LargeResponsesKeepMinimum(next, sizes[1..]);
    }
  }

  function AfterSizes(s: State, sizes: seq<int>): State
    decreases |sizes|
  {
    if sizes == [] then s else AfterSizes(AfterAdjust(s, sizes[0]), sizes[1..])
  }

  /** A sample moves the average by 2/31 of the way; the first one sets it. */
  lemma AverageMoves(value: real, sample: real)
    ensures value == 0.0 ==> EwmaAdd(value, sample) == sample
    ensures value != 0.0 ==> 31.0 * (EwmaAdd(value, sample) - value) == 2.0 * (sample - value)
  {
  }

  /** k truncated responses in a row double the minimum k times, up to 4096, and restart
      the average there. */
  lemma {:induction false} TruncationsDouble(s: State, k: nat)
    requires Sane(s.min)
    ensures AfterTruncations(s, k).min == Min(4096, s.min * Pow2(k))
    ensures k > 0 ==> AfterTruncations(s, k).average == AfterTruncations(s, k).min as real
  {
    if k > 0 {
      TruncationsDouble(s, k - 1);
      Pow2Doubles(s.min, k - 1);
    }
  }

  function AfterTruncations(s: State, k: nat): State {
    if k == 0 then s else AfterBlindAdjust(AfterTruncations(s, k - 1))
  }

  function Pow2(k: nat): (r: nat)
    ensures r > 0
  {
    if k == 0 then 1 else 2 * Pow2(k - 1)
  }

  lemma Pow2Doubles(m: int, k: nat)
    ensures m * Pow2(k + 1) == 2 * (m * Pow2(k))
  {
  }

  function Times(z: int, n: nat): (r: seq<int>)
    ensures |r| == n && forall i :: 0 <= i < n ==> r[i] == z
  {
    seq(n, _ => z)
  }

  lemma {:induction false} SizesConcat(s: State, a: seq<int>, b: seq<int>)
    ensures AfterSizes(s, a + b) == AfterSizes(AfterSizes(s, a), b)
    decreases |a|
  {
    if a == [] {
      assert a + b == b;
    } else {
      assert (a + b)[1..] == a[1..] + b;
      SizesConcat(AfterAdjust(s, a[0]), a[1..], b);
    }
  }

  /** The average comes down to less than one above a size that keeps arriving. */
  lemma {:induction false} AverageSettles(s: State, z: int) returns (n: nat)
    requires Sane(s.min) && z > 512 && s.average >= z as real
    ensures var r := AfterSizes(s, Times(z, n));
            Sane(r.min) && r.min <= s.min && z as real <= r.average < z as real + 1.0
    decreases (16.0 * (s.average - z as real)).Floor
  {
    n := 0;
    if s.average >= z as real + 1.0 {
      var next := AfterAdjust(s, z);
      assert 31.0 * (next.average - s.average) == 2.0 * (z as real - s.average);
      assert next.average <= s.average - 2.0 / 31.0;
      n := AverageSettles(next, z);
      n := n + 1;
      assert Times(z, n)[1..] == Times(z, n - 1);
    }
  }

  /** Once the average is there, every further response halves a minimum that is more
      than twice the size. */
  lemma {:induction false} MinimumSettles(s: State, z: int) returns (n: nat)
    requires Sane(s.min) && z > 512 && z as real <= s.average < z as real + 1.0
    ensures var r := AfterSizes(s, Times(z, n));
            Sane(r.min) && r.min / 2 <= z
    decreases s.min
  {
    n := 0;
    if s.min / 2 > z {
      var next := AfterAdjust(s, z);
      assert 31.0 * (next.average - s.average) == 2.0 * (z as real - s.average);
      assert z as real <= next.average < z as real + 1.0;
      assert next.average.Floor == z;
      n := MinimumSettles(next, z);
      n := n + 1;
      assert Times(z, n)[1..] == Times(z, n - 1);
    }
  }

  /** Responses of one size above 512 that keep arriving do bring the minimum down, until
      half of it is no more than that size. */
  lemma SmallResponsesShrinkMinimum(s: State, z: int) returns (n: nat)
    requires Sane(s.min) && z > 512 && s.average >= z as real
    ensures var r := AfterSizes(s, Times(z, n));
            Sane(r.min) && r.min / 2 <= z
  {
    var a := AverageSettles(s, z);
    var b := MinimumSettles(AfterSizes(s, Times(z, a)), z);
    n := a + b;
    SizesConcat(s, Times(z, a), Times(z, b));
    assert Times(z, n) == Times(z, a) + Times(z, b);
  }

  /** In every run the minimum is one of four sizes, and it is the smallest one
      exactly as long as no truncated response was seen: it never shrinks back. */
  lemma {:induction false} MinimumOverRuns(run: seq<Observation>)
    ensures Sane(AfterRun(run).min)
    ensures AfterRun(run).min == 512 <==> Truncated !in run
  {
    if run != [] {
      var init, last := run[..|run|-1], run[|run|-1];
      assert run == init + [last];
      MinimumOverRuns(init);
    }
  }
}
