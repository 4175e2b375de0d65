/** `download_iterator`: call the download action on every URL, then retry
    only the URLs whose call raised, for at most three passes.

    The action is abstracted as an oracle `succeeds`: `succeeds(p, i)` says
    whether the call on the URL at position `i` of pass `p` (both counted
    from 0) returned normally; `false` stands for a raised exception. Calls
    happen in a fixed order, so this names every call of a run exactly once. */
module Retry {

  type Url = string

  /** The initial value of `max_retry`: the number of passes allowed. */
  const MaxRetry: nat := 3

  /** How the `while` loop ended: by `break` after a pass without failures,
      or through its `else` branch once the budget reached 0. */
  datatype Ending = Finished | Aborted

  /** What a run did: the batch of URLs of each pass, in order; how it
      ended; the final `max_retry`; and the URLs still failing when it
      aborted (empty when it finished). */
  datatype Run = Run(passes: seq<seq<Url>>, ending: Ending, retriesLeft: nat, pending: seq<Url>)

  /** The URLs at positions `from ..` of `batch` whose call fails in pass
      `pass`, in their order in `batch`: the `failed` list of that pass when
      `from` is 0. */
  function Failures(batch: seq<Url>, succeeds: (nat, nat) -> bool, pass: nat, from: nat): (failed: seq<Url>)
    requires from <= |batch|
    ensures |failed| <= |batch| - from
    decreases |batch| - from
  {
    if from == |batch| then []
    else (if succeeds(pass, from) then [] else [batch[from]]) + Failures(batch, succeeds, pass, from + 1)
  }

  /** The positions `from .. n-1` whose call fails in pass `pass`, in
      increasing order. */
  function FailedPositions(n: nat, succeeds: (nat, nat) -> bool, pass: nat, from: nat): (idx: seq<nat>)
    requires from <= n
    ensures forall k :: 0 <= k < |idx| ==> from <= idx[k] < n
    ensures forall k, l :: 0 <= k < l < |idx| ==> idx[k] < idx[l]
    ensures forall i :: from <= i < n ==> (i in idx <==> !succeeds(pass, i))
    decreases n - from
  {
    if from == n then []
    else (if succeeds(pass, from) then [] else [from]) + FailedPositions(n, succeeds, pass, from + 1)
  }

  /** The passes the loop makes from `batch` when `pass` passes have been
      made and `budget` remain. */
  function Passes(batch: seq<Url>, succeeds: (nat, nat) -> bool, pass: nat, budget: nat): (r: Run)
    ensures |r.passes| <= budget && r.retriesLeft <= budget
    decreases budget
  {
    if budget == 0 then Run([], Aborted, 0, batch)
    else
      var failed := Failures(batch, succeeds, pass, 0);
      if failed == [] then Run([batch], Finished, budget, [])
      else
        var rest := Passes(failed, succeeds, pass + 1, budget - 1);
        Run([batch] + rest.passes, rest.ending, rest.retriesLeft, rest.pending)
  }

  /** All URLs attempted, in the order of the calls. */
  function Flatten(passes: seq<seq<Url>>): (calls: seq<Url>)
    ensures forall k :: 0 <= k < |passes| ==> multiset(passes[k]) <= multiset(calls)
  {
    if passes == [] then [] else passes[0] + Flatten(passes[1..])
  }

  /** `Failures` picks out exactly the URLs at the positions whose call
      failed, keeping their order: a URL whose call succeeded is dropped. */
  lemma {:induction false} FailuresAtFailedPositions(batch: seq<Url>, succeeds: (nat, nat) -> bool, pass: nat, from: nat)
    requires from <= |batch|
    ensures |Failures(batch, succeeds, pass, from)| == |FailedPositions(|batch|, succeeds, pass, from)|
    ensures forall k :: 0 <= k < |FailedPositions(|batch|, succeeds, pass, from)| ==>
      Failures(batch, succeeds, pass, from)[k] == batch[FailedPositions(|batch|, succeeds, pass, from)[k]]
    decreases |batch| - from
  {
    if from < |batch| {
      FailuresAtFailedPositions(batch, succeeds, pass, from + 1);
      var failed, idx := Failures(batch, succeeds, pass, from), FailedPositions(|batch|, succeeds, pass, from);
      var failed', idx' := Failures(batch, succeeds, pass, from + 1), FailedPositions(|batch|, succeeds, pass, from + 1);
      if !succeeds(pass, from) {
        assert failed == [batch[from]] + failed' && idx == [from] + idx';
        forall k | 1 <= k < |idx|
          ensures failed[k] == batch[idx[k]]
        {
          assert failed[k] == failed'[k - 1] && idx[k] == idx'[k - 1];
        }
      } else {
        assert failed == failed' && idx == idx';
      }
    }
  }

  /** The failures of a pass are drawn from that pass, each URL at most as
      often as it occurs in it. */
  lemma {:induction false} FailuresSubMultiset(batch: seq<Url>, succeeds: (nat, nat) -> bool, pass: nat, from: nat)
    requires from <= |batch|
    ensures multiset(Failures(batch, succeeds, pass, from)) <= multiset(batch[from..])
    decreases |batch| - from
  {
    if from < |batch| {
      FailuresSubMultiset(batch, succeeds, pass, from + 1);
      assert batch[from..] == [batch[from]] + batch[from + 1..];
    }
  }

  /** The shape of a run: at most `budget` passes, the first over the whole
      list; it aborts exactly when the budget is used up, after `budget`
      passes and with URLs still failing; otherwise it finished after the
      pass that had no failures, with nothing pending. */
  lemma {:induction false} PassesShape(batch: seq<Url>, succeeds: (nat, nat) -> bool, pass: nat, budget: nat)
    ensures var r := Passes(batch, succeeds, pass, budget);
      && (0 < budget ==> 1 <= |r.passes| && r.passes[0] == batch)
      && |r.passes| <= budget
      && r.retriesLeft <= budget
      && (r.ending == Aborted <==> r.retriesLeft == 0)
      && (r.ending == Aborted ==> |r.passes| == budget && (0 < budget ==> r.pending != []))
      && (r.ending == Finished ==> |r.passes| == budget - r.retriesLeft + 1 && r.pending == [])
    decreases budget
  {
    if budget > 0 && Failures(batch, succeeds, pass, 0) != [] {
      PassesShape(Failures(batch, succeeds, pass, 0), succeeds, pass + 1, budget - 1);
    }
  }

  /** Pass `k + 1` of `passes` is not empty and holds exactly the failures of
      pass `k`, the first of them being pass number `pass`. */
  ghost predicate RetriesFailures(passes: seq<seq<Url>>, succeeds: (nat, nat) -> bool, pass: nat, k: nat)
    requires k + 1 < |passes|
  {
    passes[k + 1] != [] && passes[k + 1] == Failures(passes[k], succeeds, pass + k, 0)
  }

  /** Each pass after the first processes exactly the URLs that failed in the
      pass before it, and every pass but the last had failures. The last pass
      had none when the run finished; when it aborted, the URLs still pending
      are that pass's failures. */
  lemma {:induction false} PassesChain(batch: seq<Url>, succeeds: (nat, nat) -> bool, pass: nat, budget: nat)
    ensures forall k: nat :: k + 1 < |Passes(batch, succeeds, pass, budget).passes| ==>
      RetriesFailures(Passes(batch, succeeds, pass, budget).passes, succeeds, pass, k)
    ensures var r := Passes(batch, succeeds, pass, budget);
      var last := |r.passes| - 1;
      && (r.ending == Finished ==> last >= 0 && Failures(r.passes[last], succeeds, pass + last, 0) == [])
      && (r.ending == Aborted && budget > 0 ==>
            last >= 0 && r.pending == Failures(r.passes[last], succeeds, pass + last, 0))
    decreases budget
  {
    if budget > 0 {
      var r := Passes(batch, succeeds, pass, budget);
      var failed := Failures(batch, succeeds, pass, 0);
      if failed != [] {
        var rest := Passes(failed, succeeds, pass + 1, budget - 1);
        PassesChain(failed, succeeds, pass + 1, budget - 1);
        PassesShape(failed, succeeds, pass + 1, budget - 1);
        assert r.passes == [batch] + rest.passes;
        forall k: nat | k + 1 < |r.passes|
          ensures RetriesFailures(r.passes, succeeds, pass, k)
        {
          ChainCons(batch, rest.passes, succeeds, pass, k);
        }
      }
    }
  }

  /** Putting the pass that produced the first batch of `rest` in front of
      `rest` keeps every pass the failures of the one before. */
  lemma ChainCons(batch: seq<Url>, rest: seq<seq<Url>>, succeeds: (nat, nat) -> bool, pass: nat, k: nat)
    requires k < |rest|
    requires k == 0 ==> rest[0] != [] && rest[0] == Failures(batch, succeeds, pass, 0)
    requires k > 0 ==> RetriesFailures(rest, succeeds, pass + 1, k - 1)
    ensures RetriesFailures([batch] + rest, succeeds, pass, k)
  {
    var ps := [batch] + rest;
    assert ps[k + 1] == rest[k];
    if k > 0 {
      assert ps[k] == rest[k - 1];
    }
  }

  /** Every pass is drawn from the list the run started with: no URL occurs
      in a pass more often than in that list. */
  lemma {:induction false} PassesWithinList(batch: seq<Url>, succeeds: (nat, nat) -> bool, pass: nat, budget: nat, u: Url)
    ensures forall k :: 0 <= k < |Passes(batch, succeeds, pass, budget).passes| ==>
      multiset(Passes(batch, succeeds, pass, budget).passes[k])[u] <= multiset(batch)[u]
    decreases budget
  {
    var failed := Failures(batch, succeeds, pass, 0);
    if budget > 0 && failed != [] {
      var ps := Passes(batch, succeeds, pass, budget).passes;
      var rest := Passes(failed, succeeds, pass + 1, budget - 1);
      PassesWithinList(failed, succeeds, pass + 1, budget - 1, u);
      FailuresSubMultiset(batch, succeeds, pass, 0);
      assert batch[0..] == batch;
      assert multiset(failed)[u] <= multiset(batch)[u];
      assert ps == [batch] + rest.passes;
      assert ps[1..] == rest.passes;
    }
  }

  /** A URL occurring at most `m` times in each of the passes is attempted at
      most `m` times per pass in all. */
  lemma {:induction false} FlattenCount(passes: seq<seq<Url>>, u: Url, m: nat)
    requires forall k :: 0 <= k < |passes| ==> multiset(passes[k])[u] <= m
    ensures multiset(Flatten(passes))[u] <= |passes| * m
  {
    if passes != [] {
      var tail := passes[1..];
      FlattenCount(tail, u, m);
      assert multiset(Flatten(passes)) == multiset(passes[0]) + multiset(Flatten(tail));
      assert multiset(Flatten(passes))[u] <= m + |tail| * m;
      assert |passes| * m == (|tail| + 1) * m == |tail| * m + m;
    }
  }

  /** Each URL is attempted at most three times as often as it occurs in the
      list given to `download_iterator`: an entry of the list is passed to the
      action at most three times. */
  lemma AttemptsBounded(urlList: seq<Url>, succeeds: (nat, nat) -> bool, u: Url)
    ensures multiset(Flatten(Passes(urlList, succeeds, 0, MaxRetry).passes))[u]
      <= MaxRetry * multiset(urlList)[u]
  {
    var ps := Passes(urlList, succeeds, 0, MaxRetry).passes;
    PassesWithinList(urlList, succeeds, 0, MaxRetry, u);
    PassesShape(urlList, succeeds, 0, MaxRetry);
    FlattenCount(ps, u, multiset(urlList)[u]);
    var m := multiset(urlList)[u];
    assert |ps| * m <= MaxRetry * m by {
      assert |ps| == 0 || |ps| == 1 || |ps| == 2 || |ps| == 3;
    }
  }

  /** If every call raises, a non-empty list is attempted three times over
      and the run aborts with the whole list still pending. */
  lemma AllFailing(urlList: seq<Url>, succeeds: (nat, nat) -> bool)
    requires urlList != []
    requires forall p, i :: !succeeds(p, i)
    ensures Passes(urlList, succeeds, 0, MaxRetry)
      == Run([urlList, urlList, urlList], Aborted, 0, urlList)
  {
    FailuresAllFailing(urlList, succeeds, 0, 0);
    FailuresAllFailing(urlList, succeeds, 1, 0);
    FailuresAllFailing(urlList, succeeds, 2, 0);
  }

  lemma {:induction false} FailuresAllFailing(batch: seq<Url>, succeeds: (nat, nat) -> bool, pass: nat, from: nat)
    requires from <= |batch|
    requires forall p, i :: !succeeds(p, i)
    ensures Failures(batch, succeeds, pass, from) == batch[from..]
    decreases |batch| - from
  {
    if from < |batch| {
      FailuresAllFailing(batch, succeeds, pass, from + 1);
      assert batch[from..] == [batch[from]] + batch[from + 1..];
    }
  }

  /** If no call raises, the run makes one pass over the list and finishes. */
  lemma AllSucceeding(urlList: seq<Url>, succeeds: (nat, nat) -> bool)
    requires forall p, i :: succeeds(p, i)
    ensures Passes(urlList, succeeds, 0, MaxRetry) == Run([urlList], Finished, MaxRetry, [])
  {
    FailuresAllSucceeding(urlList, succeeds, 0, 0);
  }

  lemma {:induction false} FailuresAllSucceeding(batch: seq<Url>, succeeds: (nat, nat) -> bool, pass: nat, from: nat)
    requires from <= |batch|
    requires forall p, i :: succeeds(p, i)
    ensures Failures(batch, succeeds, pass, from) == []
    decreases |batch| - from
  {
    if from < |batch| {
      FailuresAllSucceeding(batch, succeeds, pass, from + 1);
    }
  }

  /** The run `whole` consists of the passes `done` followed by the run `rest`. */
  ghost predicate Continues(whole: Run, done: seq<seq<Url>>, rest: Run) {
    whole == Run(done + rest.passes, rest.ending, rest.retriesLeft, rest.pending)
  }

  /** After a pass with failures the loop goes on with those failures. */
  lemma ContinuesAfterFailures(whole: Run, done: seq<seq<Url>>, batch: seq<Url>, failed: seq<Url>,
                               succeeds: (nat, nat) -> bool, pass: nat, budget: nat)
    requires budget > 0 && failed == Failures(batch, succeeds, pass, 0) && failed != []
    requires Continues(whole, done, Passes(batch, succeeds, pass, budget))
    ensures Continues(whole, done + [batch], Passes(failed, succeeds, pass + 1, budget - 1))
  {
    var rest := Passes(failed, succeeds, pass + 1, budget - 1);
    assert done + ([batch] + rest.passes) == (done + [batch]) + rest.passes;
  }

  /** The `for` loop of one pass: call the action on every URL of `batch`
      and append each URL whose call raised to `failed`. */
  method AttemptPass(batch: seq<Url>, succeeds: (nat, nat) -> bool, pass: nat) returns (failed: seq<Url>)
    ensures failed == Failures(batch, succeeds, pass, 0)
  {
    failed := [];
    for i := 0 to |batch|
      invariant failed + Failures(batch, succeeds, pass, i) == Failures(batch, succeeds, pass, 0)
    {
      ghost var rest := Failures(batch, succeeds, pass, i + 1);
      // `to_call(video_url)`: the oracle says whether it returned or raised.
      var ok := succeeds(pass, i);
      if !ok {
        assert Failures(batch, succeeds, pass, i) == [batch[i]] + rest;
        assert (failed + [batch[i]]) + rest == failed + ([batch[i]] + rest);
        failed := failed + [batch[i]];
      } else {
        assert Failures(batch, succeeds, pass, i) == [] + rest == rest;
      }
    }
    assert failed + [] == failed;
  }

  /** `download_iterator(url_list, to_call)`. The caller's list is a value
      here, so the copy the source makes leaves it untouched by construction. */
  method DownloadIterator(urlList: seq<Url>, succeeds: (nat, nat) -> bool)
    returns (passes: seq<seq<Url>>, ending: Ending, retriesLeft: nat, pending: seq<Url>)
    ensures Run(passes, ending, retriesLeft, pending) == Passes(urlList, succeeds, 0, MaxRetry)
  {
    var failed: seq<Url> := [];
    var maxRetry: nat := MaxRetry;
    var toDownload := urlList;
    passes, ending := [], Aborted;
    ghost var whole := Passes(urlList, succeeds, 0, MaxRetry);
    assert [] + whole.passes == whole.passes;
    while maxRetry > 0
      invariant maxRetry <= MaxRetry
      invariant failed == [] && ending == Aborted
      invariant Continues(whole, passes, Passes(toDownload, succeeds, MaxRetry - maxRetry, maxRetry))
      decreases maxRetry
    {
      var pass := MaxRetry - maxRetry;
      failed := AttemptPass(toDownload, succeeds, pass);
      if failed != [] {
        ContinuesAfterFailures(whole, passes, toDownload, failed, succeeds, pass, maxRetry);
        passes, toDownload, failed, maxRetry := passes + [toDownload], failed, [], maxRetry - 1;
      } else {
        passes := passes + [toDownload];
        ending := Finished;
        break;
      }
    }
    assert ending == Aborted ==> passes + [] == passes;
    retriesLeft := maxRetry;
    pending := if ending == Finished then [] else toDownload;
  }
}
