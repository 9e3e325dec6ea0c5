/** The completion loop of `process_source`: every finished future updates the
    `updated`/`unchanged`/`failed` counters and, for a real (non-dry) update
    with a hash, the manifest entry of its document. Futures finish in any
    order; the loop is a fold over the completions in the order they finish. */
module Aggregate {
  import opened Results
  import opened Seqs
  import opened Manifests
  import opened Documents

  /** The `stats` dictionary; `unmodified` is its `"unchanged"` counter. */
  datatype Tally = Tally(updated: nat, unmodified: nat, failed: nat)

  const Zero := Tally(0, 0, 0)

  /** A submitted document: `(url, doc_name, existing_hash)`. */
  datatype Task = Task(url: string, name: string, existing: Option<string>)

  /** A finished future: its task, what it produced, and the clock reading
      when its result was handled (the `last_fetched` stamp). */
  datatype Completion = Completion(task: Task, outcome: Outcome, stamp: string)

  /** What the loop has built so far: the counters and the manifest documents. */
  datatype Acc = Acc(tally: Tally, documents: map<string, Entry>)

  predicate CountsUpdated(o: Outcome) {
    o.Returned? && (o.status == Updated || o.status == WouldUpdate)
  }

  predicate CountsUnchanged(o: Outcome) {
    o.Returned? && o.status == Unchanged
  }

  /** A `failed` status, or an exception raised by the future. */
  predicate CountsFailed(o: Outcome) {
    o.Raised? || o.status == Failed
  }

  /** Every outcome lands in exactly one counter. */
  lemma ExactlyOneCounter(o: Outcome)
    ensures (if CountsUpdated(o) then 1 else 0) + (if CountsUnchanged(o) then 1 else 0)
            + (if CountsFailed(o) then 1 else 0) == 1
  {
  }

  /** The outcome `o` makes the loop write the manifest entry named `key`: a
      real run, an update, and a non-empty hash. */
  predicate Writes(o: Outcome, key: string, dryRun: bool) {
    !dryRun && CountsUpdated(o) && Truthy(o.hash) && o.name == key
  }

  /** The completion `c` writes the manifest entry named `key`. */
  predicate WritesKey(c: Completion, key: string, dryRun: bool) {
    Writes(c.outcome, key, dryRun)
  }

  /** The entry written for `c`. */
  function EntryOf(c: Completion): Entry
    requires c.outcome.Returned?
  {
    Entry(c.task.url, c.outcome.hash, c.stamp)
  }

  /** One iteration of the `as_completed` loop. */
  function Absorb(acc: Acc, c: Completion, dryRun: bool): (r: Acc)
    ensures r.tally.updated + r.tally.unmodified + r.tally.failed
            == acc.tally.updated + acc.tally.unmodified + acc.tally.failed + 1
    ensures forall key :: WritesKey(c, key, dryRun) ==> key in r.documents && r.documents[key] == EntryOf(c)
    ensures forall key :: !WritesKey(c, key, dryRun) ==>
              (key in r.documents <==> key in acc.documents)
              && (key in acc.documents ==> r.documents[key] == acc.documents[key])
  {
    var o := c.outcome;
    if CountsUnchanged(o) then Acc(acc.tally.(unmodified := acc.tally.unmodified + 1), acc.documents)
    else if CountsUpdated(o) then
      var documents := if !dryRun && Truthy(o.hash) then acc.documents[o.name := EntryOf(c)] else acc.documents;
      Acc(acc.tally.(updated := acc.tally.updated + 1), documents)
    else Acc(acc.tally.(failed := acc.tally.failed + 1), acc.documents)
  }

  /** The loop over completions `cs`, in the order they finish. */
  function Run(acc: Acc, cs: seq<Completion>, dryRun: bool): (r: Acc)
    ensures r.tally.updated + r.tally.unmodified + r.tally.failed
            == acc.tally.updated + acc.tally.unmodified + acc.tally.failed + |cs|
  {
    if |cs| == 0 then acc else Absorb(Run(acc, cs[..|cs| - 1], dryRun), cs[|cs| - 1], dryRun)
  }

  function Outcomes(cs: seq<Completion>): (os: seq<Outcome>)
    ensures |os| == |cs| && forall k :: 0 <= k < |cs| ==> os[k] == cs[k].outcome
  {
    Map((c: Completion) => c.outcome, cs)
  }

  /** The counters a batch of outcomes contributes, counted independently. */
  function TallyOf(os: seq<Outcome>): Tally {
    Tally(Count(os, CountsUpdated), Count(os, CountsUnchanged), Count(os, CountsFailed))
  }

  /** Every outcome of a batch is counted exactly once. */
  lemma {:induction false} TallyOfTotal(os: seq<Outcome>)
    ensures TallyOf(os).updated + TallyOf(os).unmodified + TallyOf(os).failed == |os|
    decreases |os|
  {
    if |os| > 0 {
      TallyOfTotal(os[..|os| - 1]);
      ExactlyOneCounter(os[|os| - 1]);
    }
  }

  /** The counters only depend on the multiset of outcomes, not on the order
      in which the futures finished. */
  lemma TallyOfPermutation(a: seq<Outcome>, b: seq<Outcome>)
    requires multiset(a) == multiset(b)
    ensures TallyOf(a) == TallyOf(b)
  {
    CountPermutation(a, b, CountsUpdated);
    CountPermutation(a, b, CountsUnchanged);
    CountPermutation(a, b, CountsFailed);
  }

  /** The loop adds to the counters exactly the tally of its outcomes. */
  lemma {:induction false} RunTally(acc: Acc, cs: seq<Completion>, dryRun: bool)
    ensures var t := TallyOf(Outcomes(cs));
            Run(acc, cs, dryRun).tally
            == Tally(acc.tally.updated + t.updated, acc.tally.unmodified + t.unmodified, acc.tally.failed + t.failed)
    decreases |cs|
  {
    if |cs| > 0 {
      var init := cs[..|cs| - 1];
      RunTally(acc, init, dryRun);
      AbsorbTally(Run(acc, init, dryRun), cs[|cs| - 1], dryRun);
      var os := Outcomes(cs);
      assert os[..|os| - 1] == Outcomes(init);
      assert os[|os| - 1] == cs[|cs| - 1].outcome;
    }
  }

  /** One completion adds one to the counter of its kind. */
  lemma AbsorbTally(acc: Acc, c: Completion, dryRun: bool)
    ensures var o := c.outcome;
            Absorb(acc, c, dryRun).tally
            == Tally(acc.tally.updated + (if CountsUpdated(o) then 1 else 0),
                     acc.tally.unmodified + (if CountsUnchanged(o) then 1 else 0),
                     acc.tally.failed + (if CountsFailed(o) then 1 else 0))
  {
  }

  /** A dry run never touches the manifest documents. */
  lemma {:induction false} DryRunKeepsDocuments(acc: Acc, cs: seq<Completion>)
    ensures Run(acc, cs, true).documents == acc.documents
    decreases |cs|
  {
    if |cs| > 0 {
      DryRunKeepsDocuments(acc, cs[..|cs| - 1]);
    }
  }

  /** A key no completion writes keeps its loaded entry (or stays absent). */
  lemma {:induction false} RunKeepsUnwritten(acc: Acc, cs: seq<Completion>, dryRun: bool, key: string)
    requires forall k :: 0 <= k < |cs| ==> !WritesKey(cs[k], key, dryRun)
    ensures key in Run(acc, cs, dryRun).documents <==> key in acc.documents
    ensures key in acc.documents ==> Run(acc, cs, dryRun).documents[key] == acc.documents[key]
    decreases |cs|
  {
    if |cs| > 0 {
      RunKeepsUnwritten(acc, cs[..|cs| - 1], dryRun, key);
    }
  }

  /** The last completion that writes a key decides its entry: later
      completions for other keys, or that do not write, leave it alone. */
  lemma {:induction false} RunLastWriteWins(acc: Acc, cs: seq<Completion>, dryRun: bool, key: string, i: nat)
    requires i < |cs| && WritesKey(cs[i], key, dryRun)
    requires forall k :: i < k < |cs| ==> !WritesKey(cs[k], key, dryRun)
    ensures key in Run(acc, cs, dryRun).documents
    ensures Run(acc, cs, dryRun).documents[key] == EntryOf(cs[i])
    decreases |cs|
  {
    if i < |cs| - 1 {
      RunLastWriteWins(acc, cs[..|cs| - 1], dryRun, key, i);
    }
  }

  /** Stability across runs: when a real run's last write of `n` came from
      fetching `fetched`, the next run that fetches the same content for `n`,
      dry or not, finds the stored hash equal and reports `unchanged`. Only the
      last writer's hash survives, so of two URLs with the same name and
      different content the other one is updated again on every run. */
  lemma StableAcrossRuns(acc: Acc, cs: seq<Completion>, n: string, i: nat, digest: string -> string,
                         e: Option<string>, force: bool, fetched: Option<string>, w: bool, w2: bool,
                         dryRun: bool)
    requires i < |cs| && WritesKey(cs[i], n, false)
    requires forall k :: i < k < |cs| ==> !WritesKey(cs[k], n, false)
    requires cs[i].outcome == ProcessDocument(n, e, force, false, fetched, digest, w)
    ensures ProcessDocument(n, StoredHash(Run(acc, cs, false).documents, n), false, dryRun, fetched, digest, w2)
            == Returned(n, Unchanged, None, None)
  {
    RunLastWriteWins(acc, cs, false, n, i);
  }

  /** The keys after the loop are the loaded keys plus the names of the
      documents actually written. */
  lemma RunKeys(acc: Acc, cs: seq<Completion>, dryRun: bool, key: string)
    ensures key in Run(acc, cs, dryRun).documents <==>
              key in acc.documents || exists k :: 0 <= k < |cs| && WritesKey(cs[k], key, dryRun)
  {
    if exists k :: 0 <= k < |cs| && WritesKey(cs[k], key, dryRun) {
      var i := LastWrite(cs, key, dryRun);
      RunLastWriteWins(acc, cs, dryRun, key, i);
    } else {
      RunKeepsUnwritten(acc, cs, dryRun, key);
    }
  }

  /** The index of the last completion that writes `key`. */
  lemma LastWrite(cs: seq<Completion>, key: string, dryRun: bool) returns (i: nat)
    requires exists k :: 0 <= k < |cs| && WritesKey(cs[k], key, dryRun)
    ensures i < |cs| && WritesKey(cs[i], key, dryRun)
    ensures forall k :: i < k < |cs| ==> !WritesKey(cs[k], key, dryRun)
  {
    var k :| 0 <= k < |cs| && WritesKey(cs[k], key, dryRun);
    i := k;
    while i + 1 < |cs| && exists j :: i < j < |cs| && WritesKey(cs[j], key, dryRun)
      invariant i < |cs| && WritesKey(cs[i], key, dryRun)
      decreases |cs| - i
    {
      var j :| i < j < |cs| && WritesKey(cs[j], key, dryRun);
      i := j;
    }
  }
}
