/** The client's request helper, which retries a failing request with a
    doubling delay, and the `m:ss` formatting of the recording timer. */
module Utils {
  import opened Types

  // ---------------------------------------------------------------------
  // Retry with doubling delay
  // ---------------------------------------------------------------------

  /** How one request attempt ended: an ok response whose JSON body decoded,
      a response whose status is not ok, a transport error from `fetch`, or
      an ok response whose body is not JSON. */
  datatype Attempt<T> = Ok(body: T) | NotOk(status: int) | TransportError(reason: string) | DecodeError(reason: string)

  /** The error an unsuccessful attempt throws. */
  datatype Failure = HttpError(status: int) | NetworkError(reason: string) | BadJson(reason: string)

  datatype Outcome<T> = Success(body: T) | Failed(error: Failure)

  /** What a call amounts to: its outcome, the pauses it made (in
      milliseconds, in order) and how many attempts it made. */
  datatype Run<T> = Run(outcome: Outcome<T>, waits: seq<int>, attempts: nat)

  function FailureOf<T>(a: Attempt<T>): Failure
    requires !a.Ok?
  {
    match a
    case NotOk(s) => HttpError(s)
    case TransportError(r) => NetworkError(r)
    case DecodeError(r) => BadJson(r)
  }

  function Pow2(k: nat): (p: nat)
    ensures p >= 1
  {
    if k == 0 then 1 else 2 * Pow2(k - 1)
  }

  function MaxAttempts(retries: int): nat {
    if retries > 0 then retries + 1 else 1
  }

  /** The call that starts at attempt number `i` with `retries` retries left
      and the next pause `delay`; `outcome(k)` is how attempt `k` ends.
      It returns the body of the first ok attempt, pausing `delay`,
      `2 * delay`, ... between attempts, and rethrows the error of the last
      attempt once the retries are used up. At most `retries + 1` attempts
      are made, with one pause between each two. */
  function Backoff<T>(outcome: nat -> Attempt<T>, i: nat, retries: int, delay: int): (run: Run<T>)
    ensures 1 <= run.attempts <= MaxAttempts(retries)
    ensures |run.waits| == run.attempts - 1
    decreases if retries > 0 then retries else 0
  {
    var a := outcome(i);
    if a.Ok? then Run(Success(a.body), [], 1)
    else if retries > 0 then
      var rest := Backoff(outcome, i + 1, retries - 1, delay * 2);
      Run(rest.outcome, [delay] + rest.waits, rest.attempts + 1)
    else Run(Failed(FailureOf(a)), [], 1)
  }

  /** The pause before retry `k + 1` is `delay * 2^k`. */
  lemma {:induction false} BackoffWaits<T>(outcome: nat -> Attempt<T>, i: nat, retries: int, delay: int)
    ensures var run := Backoff(outcome, i, retries, delay);
      forall k :: 0 <= k < |run.waits| ==> run.waits[k] == delay * Pow2(k)
    decreases if retries > 0 then retries else 0
  {
    var run := Backoff(outcome, i, retries, delay);
    if !outcome(i).Ok? && retries > 0 {
      var rest := Backoff(outcome, i + 1, retries - 1, delay * 2);
      BackoffWaits(outcome, i + 1, retries - 1, delay * 2);
      forall k | 0 <= k < |run.waits| ensures run.waits[k] == delay * Pow2(k) {
        if k > 0 {
          assert run.waits[k] == rest.waits[k - 1] == (delay * 2) * Pow2(k - 1);
          assert Pow2(k) == 2 * Pow2(k - 1);
          assert (delay * 2) * Pow2(k - 1) == delay * (2 * Pow2(k - 1));
        }
      }
    }
  }

  /** The call succeeds exactly when its last attempt is ok, every earlier
      attempt failed, and a failed call has used up every retry and rethrows
      the last attempt's error. */
  lemma {:induction false} BackoffOutcome<T>(outcome: nat -> Attempt<T>, i: nat, retries: int, delay: int)
    ensures var run := Backoff(outcome, i, retries, delay);
      && (forall k :: i <= k < i + run.attempts - 1 ==> !outcome(k).Ok?)
      && (run.outcome.Success? <==> outcome(i + run.attempts - 1).Ok?)
      && (run.outcome.Success? ==> run.outcome.body == outcome(i + run.attempts - 1).body)
      && (run.outcome.Failed? ==>
            run.attempts == MaxAttempts(retries) && run.outcome.error == FailureOf(outcome(i + run.attempts - 1)))
    decreases if retries > 0 then retries else 0
  {
    if !outcome(i).Ok? && retries > 0 {
      BackoffOutcome(outcome, i + 1, retries - 1, delay * 2);
    }
  }

  /** `fetchWithBackoff`: the recursion of the original unrolled into a loop
      over attempts. */
  method FetchWithBackoff<T>(outcome: nat -> Attempt<T>, retries: int, delay: int) returns (run: Run<T>)
    ensures run == Backoff(outcome, 0, retries, delay)
  {
    var i: nat := 0;
    var left := retries;
    var pause := delay;
    var waits: seq<int> := [];
    while true
      invariant
        var b := Backoff(outcome, i, left, pause);
        Backoff(outcome, 0, retries, delay) == Run(b.outcome, waits + b.waits, i + b.attempts)
      decreases if left > 0 then left else 0
    {
      var a := outcome(i);
      if a.Ok? {
        assert waits + [] == waits;
        return Run(Success(a.body), waits, i + 1);
      }
      if left <= 0 {
        assert waits + [] == waits;
        return Run(Failed(FailureOf(a)), waits, i + 1);
      }
      ghost var rest := Backoff(outcome, i + 1, left - 1, pause * 2);
      assert Backoff(outcome, i, left, pause) == Run(rest.outcome, [pause] + rest.waits, rest.attempts + 1);
      assert waits + ([pause] + rest.waits) == (waits + [pause]) + rest.waits;
      waits := waits + [pause];
      i := i + 1;
      left := left - 1;
      pause := pause * 2;
    }
  }

  /** With the default three retries and one second, a request that never
      succeeds pauses 1000, 2000 and 4000 ms and rethrows the fourth error. */
  lemma DefaultScheduleWhenAllFail<T>(outcome: nat -> Attempt<T>)
    requires forall k :: !outcome(k).Ok?
    ensures Backoff(outcome, 0, 3, 1000).waits == [1000, 2000, 4000]
    ensures Backoff(outcome, 0, 3, 1000).outcome == Failed(FailureOf(outcome(3)))
  {
    var run := Backoff(outcome, 0, 3, 1000);
    BackoffOutcome(outcome, 0, 3, 1000);
    BackoffWaits(outcome, 0, 3, 1000);
    assert run.attempts == 4;
    assert Pow2(1) == 2 && Pow2(2) == 4;
  }

  /** No retries: exactly one attempt and no pause, whatever it returns. */
  lemma NoRetriesOneAttempt<T>(outcome: nat -> Attempt<T>, retries: int, delay: int)
    requires retries <= 0
    ensures Backoff(outcome, 0, retries, delay).attempts == 1
    ensures Backoff(outcome, 0, retries, delay).waits == []
  {
  }

  /** A request that fails twice, in any of the three ways, and then succeeds
      returns the third body after pausing 1000 and 2000 ms. */
  lemma ThirdAttemptSucceeds<T>(outcome: nat -> Attempt<T>)
    requires !outcome(0).Ok? && !outcome(1).Ok? && outcome(2).Ok?
    ensures Backoff(outcome, 0, 3, 1000) == Run(Success(outcome(2).body), [1000, 2000], 3)
  {
    var r2 := Backoff(outcome, 2, 1, 4000);
    var r1 := Backoff(outcome, 1, 2, 2000);
    assert r2 == Run(Success(outcome(2).body), [], 1);
    assert r1 == Run(Success(outcome(2).body), [2000], 2);
  }

  /** A bad status, a transport error and a body that is not JSON are retried
      alike: two runs whose attempts succeed at the same places with the same
      bodies pause the same and make the same number of attempts, and they
      differ at most in the error they rethrow. */
  lemma {:induction false} FailuresRetriedAlike<T>(o1: nat -> Attempt<T>, o2: nat -> Attempt<T>, i: nat, retries: int, delay: int)
    requires forall k :: o1(k).Ok? <==> o2(k).Ok?
    requires forall k :: o1(k).Ok? ==> o1(k) == o2(k)
    ensures Backoff(o1, i, retries, delay).waits == Backoff(o2, i, retries, delay).waits
    ensures Backoff(o1, i, retries, delay).attempts == Backoff(o2, i, retries, delay).attempts
    ensures Backoff(o1, i, retries, delay).outcome.Success? ==>
      Backoff(o1, i, retries, delay).outcome == Backoff(o2, i, retries, delay).outcome
    decreases if retries > 0 then retries else 0
  {
    if !o1(i).Ok? && retries > 0 {
      FailuresRetriedAlike(o1, o2, i + 1, retries - 1, delay * 2);
    }
  }

  // ---------------------------------------------------------------------
  // Timer display
  // ---------------------------------------------------------------------

  predicate IsDigit(c: char) { '0' <= c <= '9' }

  predicate AllDigits(s: string) {
    forall i :: 0 <= i < |s| ==> IsDigit(s[i])
  }

  function DigitChar(d: nat): char
    requires d < 10
  {
    ['0','1','2','3','4','5','6','7','8','9'][d]
  }

  function DigitValue(c: char): nat
    requires IsDigit(c)
  {
    c as int - '0' as int
  }

  /** The decimal numeral of `n`, as `Number.prototype.toString` writes it. */
  function Decimal(n: nat): (s: string)
    ensures |s| >= 1 && AllDigits(s)
    ensures n < 10 <==> |s| == 1
  {
    if n < 10 then [DigitChar(n)] else Decimal(n / 10) + [DigitChar(n % 10)]
  }

  /** The value of a numeral. */
  function DecimalValue(s: string): nat
    requires AllDigits(s)
  {
    if s == [] then 0 else DecimalValue(s[..|s| - 1]) * 10 + DigitValue(s[|s| - 1])
  }

  /** `padStart(2, '0')`. */
  function PadTwo(s: string): (r: string)
    ensures |s| <= 2 ==> |r| == 2
  {
    if |s| >= 2 then s else seq(2 - |s|, _ => '0') + s
  }

  /** `formatTime`: whole minutes, a colon and the remaining seconds as two
      digits. */
  function FormatTime(seconds: nat): (r: string)
    ensures |r| >= 4 && r[|r| - 3] == ':'
    ensures AllDigits(r[..|r| - 3]) && AllDigits(r[|r| - 2..])
  {
    var m := Decimal(seconds / 60);
    var s := PadTwo(Decimal(seconds % 60));
    SplitAtColon(m, s);
    m + ":" + s
  }

  /** Reads an `m:ss` display back into seconds; anything else is None. */
  function ParseTime(t: string): Option<nat> {
    if |t| >= 4 && t[|t| - 3] == ':' && AllDigits(t[..|t| - 3]) && AllDigits(t[|t| - 2..])
    then Some(DecimalValue(t[..|t| - 3]) * 60 + DecimalValue(t[|t| - 2..]))
    else None
  }

  lemma {:induction false} DecimalRoundTrip(n: nat)
    ensures DecimalValue(Decimal(n)) == n
  {
    if n >= 10 {
      DecimalRoundTrip(n / 10);
      var s := Decimal(n);
      assert s[..|s| - 1] == Decimal(n / 10);
    }
  }

  lemma PadTwoValue(s: string)
    requires AllDigits(s) && 1 <= |s| <= 2
    ensures AllDigits(PadTwo(s)) && |PadTwo(s)| == 2
    ensures DecimalValue(PadTwo(s)) == DecimalValue(s)
  {
    if |s| == 1 {
      var p := PadTwo(s);
      assert p == ['0', s[0]];
      assert p[..1] == ['0'];
      assert s[..0] == [];
    }
  }

  lemma SplitAtColon(m: string, s: string)
    requires |s| == 2
    ensures var r := m + ":" + s;
      |r| >= 3 && r[..|r| - 3] == m && r[|r| - 3] == ':' && r[|r| - 2..] == s
  {
    var r := m + ":" + s;
    assert r[..|r| - 3] == m;
    assert r[|r| - 2..] == s;
  }

  /** The seconds field is always the two digits of `seconds % 60`, and
      reading the display back gives the number of seconds. */
  lemma FormatTimeRoundTrip(seconds: nat)
    ensures var r := FormatTime(seconds);
      DecimalValue(r[|r| - 2..]) == seconds % 60 < 60
    ensures ParseTime(FormatTime(seconds)) == Some(seconds)
  {
    var m := Decimal(seconds / 60);
    var s := PadTwo(Decimal(seconds % 60));
    DecimalRoundTrip(seconds / 60);
    DecimalRoundTrip(seconds % 60);
    PadTwoValue(Decimal(seconds % 60));
    SplitAtColon(m, s);
    assert FormatTime(seconds) == m + ":" + s;
    assert DecimalValue(m) * 60 + DecimalValue(s) == seconds;
  }

  /** Two durations never display alike. */
  lemma FormatTimeInjective(a: nat, b: nat)
    requires FormatTime(a) == FormatTime(b)
    ensures a == b
  {
    FormatTimeRoundTrip(a);
    FormatTimeRoundTrip(b);
  }

  lemma FormatTimeExamples()
    ensures FormatTime(65) == "1:05"
    ensures FormatTime(600) == "10:00"
  {
    assert Decimal(1) == "1" && Decimal(5) == "5" && PadTwo("5") == "05";
    assert Decimal(10) == "10" && Decimal(0) == "0" && PadTwo("0") == "00";
  }
}
