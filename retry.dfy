/** The retry-until-stable loop both clients use: send the same request
    again and again, and stop once the answer has come back unchanged often
    enough. The answers are an input sequence; running out of them stands
    for a server that never settles, where the client would loop forever. */
module Retry {
  import opened Wrappers
  import opened Json

  /** How many answers just before the `n`-th (counting from 1) repeat it
      without a change in between: the loop's `retry_count` after that
      answer. A changed answer resets the count to 0. */
  function Run<T(==)>(rs: seq<T>, n: nat): (k: nat)
    requires n <= |rs|
    ensures n >= 2 && rs[n - 1] != rs[n - 2] ==> k == 0
    ensures k < n || n == 0
  {
    if n <= 1 then 0
    else if rs[n - 1] == rs[n - 2] then Run(rs, n - 1) + 1
    else 0
  }

  /** The value both clients put in `prev_results` before the first
      request. It is an ordinary JSON string, so an answer can equal it. */
  const SENTINEL: Json := JStr("Nvr_gnn_gv_y_p")

  /** The loop's `retry_count` right after the `n`-th answer: `prev` starts
      as `start`, so the count is the run in `[start] + rs`. */
  function Count<T(==)>(start: T, rs: seq<T>, n: nat): nat
    requires n <= |rs|
  {
    Run([start] + rs, n + 1)
  }

  /** Whether the loop stops right after the `n`-th answer: it repeated the
      previous one and the count has reached `need`. */
  predicate Stops<T(==)>(start: T, rs: seq<T>, n: nat, need: int)
    requires n <= |rs|
  {
    Count(start, rs, n) >= 1 && Count(start, rs, n) >= need
  }

  /** Where the loop settles, searching from the `n`-th answer on: the
      first answer after which it stops, with the number of requests sent
      by then, or `None` when the answers run out. */
  function SettleFrom<T(==)>(start: T, rs: seq<T>, need: int, n: nat): (Option<T>, nat)
    requires 1 <= n
    decreases |rs| + 1 - n
  {
    if n > |rs| then (None, |rs|)
    else if Stops(start, rs, n, need) then (Some(rs[n - 1]), n)
    else SettleFrom(start, rs, need, n + 1)
  }

  /** The outcome of the whole loop over the answers `rs`. */
  function Settle<T(==)>(start: T, rs: seq<T>, need: int): (Option<T>, nat) {
    SettleFrom(start, rs, need, 1)
  }

  /** `Settle` stops at the first answer where the loop's condition holds:
      the answer returned is that one, no earlier answer met the condition,
      and when nothing is returned no answer met it. */
  lemma {:induction false} SettleFromFirst<T>(start: T, rs: seq<T>, need: int, n: nat)
    requires 1 <= n
    requires forall m :: 1 <= m < n && m <= |rs| ==> !Stops(start, rs, m, need)
    ensures var (r, sent) := SettleFrom(start, rs, need, n);
      && sent <= |rs|
      && (r.Some? ==> 1 <= sent && r.value == rs[sent - 1] && Stops(start, rs, sent, need))
      && (r.None? ==> sent == |rs| && forall m :: 1 <= m <= |rs| ==> !Stops(start, rs, m, need))
      && (forall m :: 1 <= m < sent ==> !Stops(start, rs, m, need))
    decreases |rs| + 1 - n
  {
    if n <= |rs| && !Stops(start, rs, n, need) {
      SettleFromFirst(start, rs, need, n + 1);
    }
  }

  lemma SettleFirst<T>(start: T, rs: seq<T>, need: int)
    ensures var (r, sent) := Settle(start, rs, need);
      && sent <= |rs|
      && (r.Some? ==> 1 <= sent && r.value == rs[sent - 1] && Stops(start, rs, sent, need))
      && (r.None? ==> sent == |rs| && forall m :: 1 <= m <= |rs| ==> !Stops(start, rs, m, need))
      && (forall m :: 1 <= m < sent ==> !Stops(start, rs, m, need))
  {
    SettleFromFirst(start, rs, need, 1);
  }

  /** The loop: an answer equal to `prev` raises the count and may stop the
      loop, any other answer becomes `prev` and resets the count. Returns
      the final answer and how many requests were sent, or `None` when the
      answers run out first. */
  method RetryUntilStable<T(==)>(start: T, rs: seq<T>, need: int) returns (r: Option<T>, sent: nat)
    ensures (r, sent) == Settle(start, rs, need)
  {
    var prev := start;
    var count := 0;
    sent := 0;
    while sent < |rs|
      invariant sent <= |rs|
      invariant prev == ([start] + rs)[sent]
      invariant count == Count(start, rs, sent)
      invariant Settle(start, rs, need) == SettleFrom(start, rs, need, sent + 1)
    {
      var results := rs[sent];
      assert ([start] + rs)[sent + 1] == results;
      sent := sent + 1;
      if results == prev {
        count := count + 1;
        if count >= need {
          return Some(results), sent;
        }
      } else {
        prev := results;
        count := 0;
      }
    }
    r := None;
  }

  /** An answer equal to the starting value counts as a repeat: when the
      first answer is the sentinel itself, a loop that needs a single
      repeat stops after one request. */
  lemma FirstAnswerMatchesStart<T>(start: T, rs: seq<T>, need: int)
    requires |rs| >= 1 && rs[0] == start && need <= 1
    ensures Settle(start, rs, need) == (Some(start), 1)
  {
    assert ([start] + rs)[1] == ([start] + rs)[0];
  }

  /** `Run` is one less than the length of the block of equal answers that
      ends at the `n`-th: it reaches `k` exactly when the last `k + 1`
      answers are all the same. */
  lemma {:induction false} RunMeansEqualTail<T>(rs: seq<T>, n: nat, k: nat)
    requires 1 <= n <= |rs|
    ensures Run(rs, n) >= k <==> k + 1 <= n && forall j :: n - k - 1 <= j < n ==> rs[j] == rs[n - 1]
    decreases n
  {
    if k >= 1 && n >= 2 {
      if rs[n - 1] == rs[n - 2] {
        RunMeansEqualTail(rs, n - 1, k - 1);
        var tail := k + 1 <= n && forall j :: n - k - 1 <= j < n ==> rs[j] == rs[n - 1];
        var shorter := k <= n - 1 && forall j :: n - k - 1 <= j < n - 1 ==> rs[j] == rs[n - 2];
        assert tail <==> shorter;
      } else {
        assert n - k - 1 <= n - 2;
      }
    }
  }

  /** Stopping means settling: when the starting value was not among the
      answers, the answer the loop stops on is the last of `max(need, 1) + 1`
      equal answers in a row (and by `SettleFirst` no earlier answer closed
      such a run). */
  lemma StableAnswer<T>(start: T, rs: seq<T>, need: int, sent: nat)
    requires 1 <= sent <= |rs| && Stops(start, rs, sent, need)
    requires start !in rs[..sent]
    ensures var k := if need < 1 then 1 else need;
      k + 1 <= sent && forall j :: sent - k - 1 <= j < sent ==> rs[j] == rs[sent - 1]
  {
    var k := if need < 1 then 1 else need;
    var xs := [start] + rs;
    RunMeansEqualTail(xs, sent + 1, k);
    assert xs[0] != xs[sent] by {
      assert rs[sent - 1] in rs[..sent];
    }
    forall j | sent - k - 1 <= j < sent ensures rs[j] == rs[sent - 1] {
      assert xs[j + 1] == xs[sent];
    }
  }
}
