/** The streaming audit pipeline (main.py, `run_with_website`): candidates are collected once each,
    crawled in order, audited by a thread pool, and reported in submission order. The crawl, the audit
    and the moment each future completes are arbitrary. */
module Pipeline {
  import opened Basics
  import opened Outcomes

  /** `website` is empty when the provider gives none. */
  datatype Candidate = Candidate(provider: string, externalId: string, website: string)

  datatype Lead = Lead(website: string, audit: string)

  /** What the crawl and its filters decide on a candidate, and what its audit will then return:
      a lead, or nothing when the audit or the lead record raises. */
  datatype Crawl = Dropped | Accepted(audit: Option<Lead>)

  datatype Submission = Submission(externalId: string, audit: Option<Lead>)

  // ----- Phase 1: each candidate once -----

  function Key(c: Candidate): (string, string) {
    (c.provider, c.externalId)
  }

  function Keys(candidates: seq<Candidate>): set<(string, string)> {
    set c | c in candidates :: Key(c)
  }

  /** Keep a candidate with a website the first time its key appears. */
  function FirstSeen(found: seq<Candidate>): seq<Candidate> {
    if found == [] then []
    else
      var before := FirstSeen(found[..|found| - 1]);
      var c := found[|found| - 1];
      if c.website != "" && Key(c) !in Keys(before) then before + [c] else before
  }

  function Flatten(found: seq<seq<Candidate>>): seq<Candidate> {
    if found == [] then [] else Flatten(found[..|found| - 1]) + found[|found| - 1]
  }

  lemma FirstSeenOfAppend(found: seq<Candidate>, c: Candidate)
    ensures FirstSeen(found + [c])
         == FirstSeen(found) + if c.website != "" && Key(c) !in Keys(FirstSeen(found)) then [c] else []
  {
    assert (found + [c])[..|found|] == found;
  }

  lemma KeysOfAppend(candidates: seq<Candidate>, c: Candidate)
    ensures Keys(candidates + [c]) == Keys(candidates) + {Key(c)}
  {
    assert forall d :: d in candidates + [c] <==> d in candidates || d == c;
  }

  ghost predicate DistinctKeys(candidates: seq<Candidate>) {
    forall i, j | 0 <= i < j < |candidates| :: Key(candidates[i]) != Key(candidates[j])
  }

  ghost predicate HasKey(found: seq<Candidate>, key: (string, string)) {
    exists m :: 0 <= m < |found| && found[m].website != "" && Key(found[m]) == key
  }

  /** Candidate `n` is the first of `found` with a website and its key. */
  ghost predicate FirstWithKey(found: seq<Candidate>, n: nat) {
    n < |found| && found[n].website != "" && !HasKey(found[..n], Key(found[n]))
  }

  lemma {:induction false} KeysAreKept(found: seq<Candidate>, key: (string, string))
    ensures key in Keys(FirstSeen(found)) <==> HasKey(found, key)
  {
    if found != [] {
      var before, last := found[..|found| - 1], found[|found| - 1];
      KeysAreKept(before, key);
      assert HasKey(found, key) <==> HasKey(before, key) || (last.website != "" && Key(last) == key) by {
        if HasKey(before, key) {
          var m :| 0 <= m < |before| && before[m].website != "" && Key(before[m]) == key;
          assert found[m] == before[m];
        }
      }
      FirstSeenOfAppend(before, last);
      assert before + [last] == found;
    }
  }

  lemma {:induction false} KeysAreDistinct(found: seq<Candidate>)
    ensures DistinctKeys(FirstSeen(found))
  {
    if found != [] {
      KeysAreDistinct(found[..|found| - 1]);
    }
  }

  /** The collected candidates are exactly the first ones of each key that has a website. */
  lemma {:induction false} CollectedAreTheFirst(found: seq<Candidate>, c: Candidate)
    ensures c in FirstSeen(found) <==> exists n: nat :: FirstWithKey(found, n) && found[n] == c
  {
    if found != [] {
      var last := |found| - 1;
      var before := found[..last];
      CollectedAreTheFirst(before, c);
      KeysAreKept(before, Key(found[last]));
      FirstSeenOfAppend(before, found[last]);
      assert before + [found[last]] == found;
      forall n: nat | n < last ensures FirstWithKey(found, n) <==> FirstWithKey(before, n) {
        assert before[..n] == found[..n];
      }
      assert FirstWithKey(found, last) <==> found[last].website != "" && !HasKey(before, Key(found[last]));
      if c in FirstSeen(before) {
        var n: nat :| FirstWithKey(before, n) && before[n] == c;
        assert FirstWithKey(found, n) && found[n] == c;
      }
    }
  }

  // ----- Phase 2: no social-media domains -----

  function WithoutSocial(places: seq<Candidate>, social: string -> bool): seq<Candidate> {
    if places == [] then []
    else
      WithoutSocial(places[..|places| - 1], social)
      + if social(places[|places| - 1].website) then [] else [places[|places| - 1]]
  }

  lemma {:induction false} FilteringKeepsDistinct(places: seq<Candidate>, social: string -> bool)
    requires DistinctKeys(places)
    ensures DistinctKeys(WithoutSocial(places, social))
    ensures forall c | c in WithoutSocial(places, social) :: c in places && !social(c.website)
  {
    if places != [] {
      FilteringKeepsDistinct(places[..|places| - 1], social);
    }
  }

  // ----- Phases 3 to 6: what is submitted, and what is reported -----

  /** The accepted candidates in crawl order, `crawls` being the outcome for each: no candidate comes twice. */
  function Submissions(places: seq<Candidate>, crawls: Candidate -> Crawl): seq<Submission> {
    if places == [] then []
    else
      var last := |places| - 1;
      Submissions(places[..last], crawls)
      + match crawls(places[last])
        case Dropped => []
        case Accepted(audit) => [Submission(places[last].externalId, audit)]
  }

  function Store(leads: map<string, Lead>, sub: Submission): map<string, Lead> {
    match sub.audit
    case None => leads
    case Some(lead) => leads[sub.externalId := lead]
  }

  /** The lead table after the audits `order` have been consumed one after the other. */
  function Collected(prior: map<string, Lead>, subs: seq<Submission>, order: seq<nat>): map<string, Lead> {
    if order == [] then prior
    else
      var before := Collected(prior, subs, order[..|order| - 1]);
      var f := order[|order| - 1];
      if f < |subs| then Store(before, subs[f]) else before
  }

  /** The leads of the submitted candidates, in submission order. */
  function Report(subs: seq<Submission>, leads: map<string, Lead>): seq<Lead> {
    if subs == [] then []
    else
      var id := subs[|subs| - 1].externalId;
      Report(subs[..|subs| - 1], leads) + if id in leads then [leads[id]] else []
  }

  /** Each number below n once. */
  ghost predicate IsOrder(order: seq<nat>, n: nat) {
    && (forall i | 0 <= i < |order| :: order[i] < n)
    && (forall f: nat | f < n :: f in order)
    && (forall i, j | 0 <= i < j < |order| :: order[i] != order[j])
  }

  ghost predicate DistinctIds(subs: seq<Submission>) {
    forall i, j | 0 <= i < j < |subs| :: subs[i].externalId != subs[j].externalId
  }

  /** The successful audits in submission order. */
  function Successes(subs: seq<Submission>): seq<Lead> {
    if subs == [] then []
    else
      Successes(subs[..|subs| - 1])
      + match subs[|subs| - 1].audit
        case None => []
        case Some(lead) => [lead]
  }

  // ----- The orchestrator -----

  class LeadHunterOrchestrator {
    var allLeads: map<string, Lead>

    constructor ()
      ensures allLeads == map[]
    {
      allLeads := map[];
    }

    /** `found[k]` is what the scraper returns for the k-th keyword. */
    method CollectCandidates(found: seq<seq<Candidate>>) returns (places: seq<Candidate>)
      ensures places == FirstSeen(Flatten(found))
    {
      places := [];
      var seen: set<(string, string)> := {};
      var k := 0;
      while k < |found|
        invariant 0 <= k <= |found|
        invariant places == FirstSeen(Flatten(found[..k])) && seen == Keys(places)
      {
        places, seen := CollectKeyword(found[k], places, seen, Flatten(found[..k]));
        assert found[..k + 1][..k] == found[..k];
        k := k + 1;
      }
      assert found[..k] == found;
    }

    /** The places of one keyword, `earlier` being those of the keywords before it. */
    method CollectKeyword(
      found: seq<Candidate>, collected: seq<Candidate>, keys: set<(string, string)>, ghost earlier: seq<Candidate>)
      returns (places: seq<Candidate>, seen: set<(string, string)>)
      requires collected == FirstSeen(earlier) && keys == Keys(collected)
      ensures places == FirstSeen(earlier + found) && seen == Keys(places)
    {
      places, seen := collected, keys;
      var i := 0;
      assert earlier + found[..0] == earlier;
      while i < |found|
        invariant 0 <= i <= |found|
        invariant places == FirstSeen(earlier + found[..i]) && seen == Keys(places)
      {
        FirstSeenOfAppend(earlier + found[..i], found[i]);
        assert earlier + found[..i + 1] == earlier + found[..i] + [found[i]];
        if found[i].website != "" && Key(found[i]) !in seen {
          KeysOfAppend(places, found[i]);
          seen := seen + {Key(found[i])};
          places := places + [found[i]];
        }
        i := i + 1;
      }
      assert found[..i] == found;
    }

    /** The whole pipeline. With candidates of one provider, and for every completion schedule, the report is
        the leads of exactly those places whose audit succeeds, in the order in which they were found, if and
        only if no audit failed whose id an earlier run had put in the table; so it is whenever the table has
        none of the candidates' ids. */
    method RunWithWebsite(
      found: seq<seq<Candidate>>, social: string -> bool, crawls: Candidate -> Crawl, done: nat -> set<nat>,
      completion: seq<nat>)
      returns (report: seq<Lead>)
      requires var subs := Submissions(WithoutSocial(FirstSeen(Flatten(found)), social), crawls);
        IsOrder(completion, |subs|)
      modifies this
      ensures var subs := Submissions(WithoutSocial(FirstSeen(Flatten(found)), social), crawls);
        && (exists consumed :: IsOrder(consumed, |subs|) && allLeads == Collected(old(allLeads), subs, consumed))
        && report == Report(subs, allLeads)
        && (exists ps :: AreSubmitted(Flatten(found), social, crawls, subs, ps))
      ensures OneProvider(Flatten(found)) ==>
        (ReportsSuccessful(Flatten(found), social, crawls, report)
         <==> NoneLeftOver(Flatten(found), social, crawls, old(allLeads)))
      ensures OneProvider(Flatten(found)) && Unknown(Flatten(found), old(allLeads)) ==>
        ReportsSuccessful(Flatten(found), social, crawls, report)
    {
      var allPlaces := CollectCandidates(found);
      var places := FilterSocial(allPlaces, social);
      ghost var consumed;
      var completed;
      report, completed, consumed := StreamAudits(places, crawls, done, completion);
      ghost var ps := SubmittedPlaces(Flatten(found), social, crawls);
      if OneProvider(Flatten(found)) {
        OneProviderReportsPlaces(Flatten(found), social, crawls, old(allLeads), consumed);
      }
    }

    method FilterSocial(allPlaces: seq<Candidate>, social: string -> bool) returns (places: seq<Candidate>)
      ensures places == WithoutSocial(allPlaces, social)
    {
      places := [];
      var i := 0;
      while i < |allPlaces|
        invariant 0 <= i <= |allPlaces|
        invariant places == WithoutSocial(allPlaces[..i], social)
      {
        assert allPlaces[..i + 1][..i] == allPlaces[..i];
        if !social(allPlaces[i].website) {
          places := places + [allPlaces[i]];
        }
        i := i + 1;
      }
      assert allPlaces[..i] == allPlaces;
    }

    /** Crawl in order, submit, poll, then drain. `done(i)` is the set of futures seen complete at the poll
        after the i-th crawl, none where a dropped candidate skips it, and `completion` the order in which
        `as_completed` yields those still pending. `consumed` records the futures in the order in which
        their results were taken. */
    method StreamAudits(
      places: seq<Candidate>, crawls: Candidate -> Crawl, done: nat -> set<nat>, completion: seq<nat>)
      returns (report: seq<Lead>, completed: nat, ghost consumed: seq<nat>)
      requires IsOrder(completion, |Submissions(places, crawls)|)
      modifies this
      ensures IsOrder(consumed, |Submissions(places, crawls)|)
      ensures allLeads == Collected(old(allLeads), Submissions(places, crawls), consumed)
      ensures report == Report(Submissions(places, crawls), allLeads)
      ensures completed == |consumed| == |Submissions(places, crawls)|
      ensures (forall i | 0 <= i < |places| :: done(i) == {}) ==> consumed == completion
    {
      ghost var prior := allLeads;
      ghost var subs: seq<Submission> := [];
      var futures: map<nat, Submission> := map[];
      var validLeadIds: seq<string> := [];
      completed, consumed := 0, [];
      var idx := 0;
      while idx < |places|
        invariant 0 <= idx <= |places|
        invariant subs == Submissions(places[..idx], crawls) && Listed(validLeadIds, subs)
        invariant Tracked(futures, consumed, subs) && completed == |consumed|
        invariant allLeads == Collected(prior, subs, consumed)
        invariant (forall i | 0 <= i < idx :: done(i) == {}) ==> consumed == []
      {
        assert places[..idx + 1][..idx] == places[..idx];
        match crawls(places[idx]) {
          case Dropped =>
          case Accepted(audit) =>
            var submission := Submission(places[idx].externalId, audit);
            SubmitTracked(futures, consumed, prior, subs, submission);
            futures := futures[|validLeadIds| := submission];
            validLeadIds := validLeadIds + [places[idx].externalId];
            subs := subs + [submission];
        }
        futures, completed, consumed :=
          PollDone(futures, done(idx), |validLeadIds|, completed, prior, subs, consumed);
        idx := idx + 1;
      }
      assert places[..idx] == places;
      completed, consumed := Drain(futures, completion, completed, prior, subs, consumed);
      CountOrder(consumed, |subs|);
      report := ReportLeads(validLeadIds, subs);
    }

    /** The non-blocking poll: take every pending future that is done, oldest first. */
    method PollDone(
      pending: map<nat, Submission>, done: set<nat>, submitted: nat, before: nat,
      ghost prior: map<string, Lead>, ghost subs: seq<Submission>, ghost taken: seq<nat>)
      returns (futures: map<nat, Submission>, completed: nat, ghost consumed: seq<nat>)
      requires Tracked(pending, taken, subs) && before == |taken| && submitted == |subs|
      requires allLeads == Collected(prior, subs, taken)
      modifies this
      ensures Tracked(futures, consumed, subs) && completed == |consumed|
      ensures allLeads == Collected(prior, subs, consumed)
      ensures done == {} ==> consumed == taken
      ensures forall f | f in futures :: f in pending && f !in done
    {
      var ready: seq<nat> := [];
      var f := 0;
      while f < submitted
        invariant 0 <= f <= submitted
        invariant forall g: nat :: g in ready <==> g < f && g in pending && g in done
      {
        if f in pending && f in done {
          ready := ready + [f];
        }
        f := f + 1;
      }
      futures, completed, consumed := TakeEach(pending, ready, before, prior, subs, taken);
      YieldedTracked(taken, ready, |ready|, pending, subs);
      PolledAreGone(ready, pending, done, subs);
    }

    /** Take one future, if it is pending, out of the pending ones and count it. */
    method FinishIfPending(
      pending: map<nat, Submission>, f: nat, before: nat,
      ghost prior: map<string, Lead>, ghost subs: seq<Submission>, ghost taken: seq<nat>)
      returns (futures: map<nat, Submission>, completed: nat, ghost consumed: seq<nat>)
      requires f in pending ==> f < |subs| && pending[f] == subs[f]
      requires before == |taken| && allLeads == Collected(prior, subs, taken)
      modifies this
      ensures futures == pending - {f} && completed == |consumed|
      ensures consumed == if f in pending then taken + [f] else taken
      ensures allLeads == Collected(prior, subs, consumed)
    {
      if f in pending {
        CollectOne(prior, subs, taken, f);
        Consume(pending[f]);
        futures, completed, consumed := pending - {f}, before + 1, taken + [f];
      } else {
        futures, completed, consumed := pending, before, taken;
        assert pending - {f} == pending;
      }
    }

    /** The final wait: take every pending future, in completion order. */
    method Drain(
      pending: map<nat, Submission>, completion: seq<nat>, before: nat,
      ghost prior: map<string, Lead>, ghost subs: seq<Submission>, ghost taken: seq<nat>)
      returns (completed: nat, ghost consumed: seq<nat>)
      requires Tracked(pending, taken, subs) && before == |taken| && IsOrder(completion, |subs|)
      requires allLeads == Collected(prior, subs, taken)
      modifies this
      ensures IsOrder(consumed, |subs|) && completed == |consumed|
      ensures allLeads == Collected(prior, subs, consumed)
      ensures taken == [] ==> consumed == completion
    {
      var futures;
      futures, completed, consumed := TakeEach(pending, completion, before, prior, subs, taken);
      YieldedTracked(taken, completion, |completion|, pending, subs);
      RemainingDrops(completion, |completion|, pending);
      NothingPending(futures, consumed, subs, completion);
      if taken == [] {
        TakenInOrder(subs, pending, completion);
      }
    }

    /** Take the pending ones of some futures, one after the other. */
    method TakeEach(
      pending: map<nat, Submission>, completion: seq<nat>, before: nat,
      ghost prior: map<string, Lead>, ghost subs: seq<Submission>, ghost taken: seq<nat>)
      returns (futures: map<nat, Submission>, completed: nat, ghost consumed: seq<nat>)
      requires Agrees(pending, subs) && before == |taken|
      requires allLeads == Collected(prior, subs, taken)
      modifies this
      ensures completed == |consumed| && allLeads == Collected(prior, subs, consumed)
      ensures consumed == Yielded(taken, completion, |completion|, pending)
      ensures futures == Remaining(completion, |completion|, pending)
    {
      futures, completed, consumed := pending, before, taken;
      var c := 0;
      while c < |completion|
        invariant 0 <= c <= |completion|
        invariant completed == |consumed| && allLeads == Collected(prior, subs, consumed)
        invariant consumed == Yielded(taken, completion, c, pending)
        invariant futures == Remaining(completion, c, pending)
      {
        RemainingAgrees(completion, c, pending, subs);
        futures, completed, consumed := FinishIfPending(futures, completion[c], completed, prior, subs, consumed);
        c := c + 1;
      }
    }

    method ReportLeads(validLeadIds: seq<string>, ghost subs: seq<Submission>) returns (report: seq<Lead>)
      requires Listed(validLeadIds, subs)
      ensures report == Report(subs, allLeads)
    {
      report := [];
      var i := 0;
      while i < |validLeadIds|
        invariant 0 <= i <= |validLeadIds|
        invariant report == Report(subs[..i], allLeads)
      {
        assert subs[..i + 1][..i] == subs[..i];
        if validLeadIds[i] in allLeads {
          report := report + [allLeads[validLeadIds[i]]];
        }
        i := i + 1;
      }
      assert subs[..i] == subs;
    }

    /** Take one finished future: store its lead, or log its failure. */
    method Consume(submission: Submission)
      modifies this
      ensures allLeads == Store(old(allLeads), submission)
    {
      match submission.audit
      case None =>
      case Some(lead) => allLeads := allLeads[submission.externalId := lead];
    }
  }

  ghost predicate Listed(ids: seq<string>, subs: seq<Submission>) {
    |ids| == |subs| && forall f | 0 <= f < |subs| :: ids[f] == subs[f].externalId
  }

  /** Every submitted future is either pending or consumed, never both, and consumed at most once. */
  ghost predicate Tracked(futures: map<nat, Submission>, consumed: seq<nat>, subs: seq<Submission>) {
    && (forall f | f in futures :: f < |subs| && futures[f] == subs[f] && f !in consumed)
    && (forall i | 0 <= i < |consumed| :: consumed[i] < |subs|)
    && (forall f: nat | f < |subs| :: f in futures || f in consumed)
    && (forall i, j | 0 <= i < j < |consumed| :: consumed[i] != consumed[j])
  }

  lemma SubmitTracked(
    futures: map<nat, Submission>, consumed: seq<nat>, prior: map<string, Lead>, subs: seq<Submission>,
    extra: Submission)
    requires Tracked(futures, consumed, subs)
    ensures Tracked(futures[|subs| := extra], consumed, subs + [extra])
    ensures Collected(prior, subs + [extra], consumed) == Collected(prior, subs, consumed)
  {
    MoreSubmissions(prior, subs, extra, consumed);
  }

  ghost predicate Agrees(futures: map<nat, Submission>, subs: seq<Submission>) {
    forall f | f in futures :: f < |subs| && futures[f] == subs[f]
  }

  lemma ConsumeTracked(futures: map<nat, Submission>, consumed: seq<nat>, subs: seq<Submission>, f: nat)
    requires Tracked(futures, consumed, subs)
    ensures Tracked(futures - {f}, if f in futures then consumed + [f] else consumed, subs)
  {
  }

  lemma CollectOne(prior: map<string, Lead>, subs: seq<Submission>, consumed: seq<nat>, f: nat)
    requires f < |subs|
    ensures Collected(prior, subs, consumed + [f]) == Store(Collected(prior, subs, consumed), subs[f])
  {
    assert (consumed + [f])[..|consumed|] == consumed;
  }

  lemma {:induction false} MoreSubmissions(
    prior: map<string, Lead>, subs: seq<Submission>, extra: Submission, order: seq<nat>)
    requires forall i | 0 <= i < |order| :: order[i] < |subs|
    ensures Collected(prior, subs + [extra], order) == Collected(prior, subs, order)
    decreases |order|
  {
    if order != [] {
      MoreSubmissions(prior, subs, extra, order[..|order| - 1]);
    }
  }

  lemma {:induction false} CountOrder(order: seq<nat>, n: nat)
    requires IsOrder(order, n)
    ensures |order| == n
    decreases n
  {
    if n > 0 {
      assert (n - 1) as nat in order;
      var i :| 0 <= i < |order| && order[i] == n - 1;
      var rest := order[..i] + order[i + 1..];
      forall f: nat | f < n - 1 ensures f in rest {
        assert f in order;
        var k :| 0 <= k < |order| && order[k] == f;
        assert rest[if k < i then k else k - 1] == f;
      }
      CountOrder(rest, n - 1);
    }
  }

  /** What is pending after `c` futures of the completion order have come. */
  ghost function Remaining(completion: seq<nat>, c: nat, pending: map<nat, Submission>): map<nat, Submission>
    requires c <= |completion|
  {
    if c == 0 then pending else Remaining(completion, c - 1, pending) - {completion[c - 1]}
  }

  /** The futures taken by then, in order, after those `taken` before. */
  ghost function Yielded(taken: seq<nat>, completion: seq<nat>, c: nat, pending: map<nat, Submission>): seq<nat>
    requires c <= |completion|
  {
    if c == 0 then taken
    else if completion[c - 1] in Remaining(completion, c - 1, pending)
    then Yielded(taken, completion, c - 1, pending) + [completion[c - 1]]
    else Yielded(taken, completion, c - 1, pending)
  }

  lemma {:induction false} RemainingAgrees(
    completion: seq<nat>, c: nat, pending: map<nat, Submission>, subs: seq<Submission>)
    requires c <= |completion| && Agrees(pending, subs)
    ensures Agrees(Remaining(completion, c, pending), subs)
  {
    if c > 0 {
      RemainingAgrees(completion, c - 1, pending, subs);
    }
  }

  lemma {:induction false} YieldedTracked(
    taken: seq<nat>, completion: seq<nat>, c: nat, pending: map<nat, Submission>, subs: seq<Submission>)
    requires c <= |completion| && Tracked(pending, taken, subs)
    ensures Tracked(Remaining(completion, c, pending), Yielded(taken, completion, c, pending), subs)
  {
    if c > 0 {
      YieldedTracked(taken, completion, c - 1, pending, subs);
      ConsumeTracked(
        Remaining(completion, c - 1, pending), Yielded(taken, completion, c - 1, pending), subs, completion[c - 1]);
    }
  }

  lemma {:induction false} RemainingDrops(completion: seq<nat>, c: nat, pending: map<nat, Submission>)
    requires c <= |completion|
    ensures forall i | 0 <= i < c :: completion[i] !in Remaining(completion, c, pending)
  {
    if c > 0 {
      RemainingDrops(completion, c - 1, pending);
    }
  }

  lemma {:induction false} StillPending(completion: seq<nat>, c: nat, pending: map<nat, Submission>, f: nat)
    requires c <= |completion| && f in pending && forall i | 0 <= i < c :: completion[i] != f
    ensures f in Remaining(completion, c, pending)
  {
    if c > 0 {
      StillPending(completion, c - 1, pending, f);
    }
  }

  lemma {:induction false} RemainingIsPending(completion: seq<nat>, c: nat, pending: map<nat, Submission>)
    requires c <= |completion|
    ensures Remaining(completion, c, pending).Keys <= pending.Keys
  {
    if c > 0 {
      RemainingIsPending(completion, c - 1, pending);
    }
  }

  /** After a poll none of the futures seen done is pending. */
  lemma PolledAreGone(ready: seq<nat>, pending: map<nat, Submission>, done: set<nat>, subs: seq<Submission>)
    requires Agrees(pending, subs)
    requires forall f: nat :: f in ready <==> f < |subs| && f in pending && f in done
    ensures forall f | f in Remaining(ready, |ready|, pending) :: f in pending && f !in done
    ensures done == {} ==> ready == []
  {
    RemainingIsPending(ready, |ready|, pending);
    RemainingDrops(ready, |ready|, pending);
    assert ready != [] ==> ready[0] in ready;
  }

  /** When nothing was polled, the futures are taken exactly in completion order. */
  lemma TakenInOrder(subs: seq<Submission>, pending: map<nat, Submission>, completion: seq<nat>)
    requires Tracked(pending, [], subs) && IsOrder(completion, |subs|)
    ensures Yielded([], completion, |completion|, pending) == completion
  {
    AllYielded(completion, |completion|, pending);
    assert completion[..|completion|] == completion;
  }

  lemma {:induction false} AllYielded(completion: seq<nat>, c: nat, pending: map<nat, Submission>)
    requires c <= |completion|
    requires forall i | 0 <= i < |completion| :: completion[i] in pending
    requires forall i, j | 0 <= i < j < |completion| :: completion[i] != completion[j]
    ensures Yielded([], completion, c, pending) == completion[..c]
  {
    if c > 0 {
      AllYielded(completion, c - 1, pending);
      StillPending(completion, c - 1, pending, completion[c - 1]);
    }
  }

  lemma NothingPending(
    futures: map<nat, Submission>, consumed: seq<nat>, subs: seq<Submission>, completion: seq<nat>)
    requires Tracked(futures, consumed, subs) && IsOrder(completion, |subs|)
    requires forall i | 0 <= i < |completion| :: completion[i] !in futures
    ensures IsOrder(consumed, |subs|)
  {
    forall f: nat | f < |subs| ensures f in consumed {
      assert f in completion;
    }
  }

  // ----- The report does not depend on the schedule -----

  predicate Hits(sub: Submission, id: string) {
    sub.externalId == id && sub.audit.Some?
  }

  ghost predicate HitAt(subs: seq<Submission>, order: seq<nat>, id: string, i: int) {
    0 <= i < |order| && order[i] < |subs| && Hits(subs[order[i]], id)
  }

  /** The table holds, for each id, the lead of some successful audit of that id that was consumed; and
      what it held before when there is none. */
  lemma {:induction false} CollectedAt(prior: map<string, Lead>, subs: seq<Submission>, order: seq<nat>, id: string)
    ensures var leads := Collected(prior, subs, order);
      if exists i :: HitAt(subs, order, id, i)
      then id in leads && exists i :: HitAt(subs, order, id, i) && leads[id] == subs[order[i]].audit.value
      else (id in leads <==> id in prior) && (id in prior ==> leads[id] == prior[id])
    decreases |order|
  {
    if order != [] {
      var before, last := order[..|order| - 1], |order| - 1;
      CollectedAt(prior, subs, before, id);
      var leads := Collected(prior, subs, order);
      if HitAt(subs, order, id, last) {
        assert leads[id] == subs[order[last]].audit.value;
      } else if exists i :: HitAt(subs, before, id, i) {
        var i :| HitAt(subs, before, id, i) && Collected(prior, subs, before)[id] == subs[before[i]].audit.value;
        assert HitAt(subs, order, id, i);
      } else {
        assert forall i :: HitAt(subs, order, id, i) ==> i == last || HitAt(subs, before, id, i);
      }
    }
  }

  lemma HitsDoNotDependOnOrder(subs: seq<Submission>, order: seq<nat>, id: string)
    requires IsOrder(order, |subs|)
    ensures (exists i :: HitAt(subs, order, id, i)) <==> exists f: nat :: f < |subs| && Hits(subs[f], id)
  {
    if f: nat :| f < |subs| && Hits(subs[f], id) {
      assert f in order;
      var i :| 0 <= i < |order| && order[i] == f;
      assert HitAt(subs, order, id, i);
    }
  }

  /** Two successful audits with the same external id found the same lead. */
  ghost predicate Compatible(subs: seq<Submission>) {
    forall i, j | 0 <= i < |subs| && 0 <= j < |subs| && subs[i].externalId == subs[j].externalId
                  && subs[i].audit.Some? && subs[j].audit.Some? :: subs[i].audit == subs[j].audit
  }

  lemma SameKeys(prior: map<string, Lead>, subs: seq<Submission>, a: seq<nat>, b: seq<nat>)
    requires IsOrder(a, |subs|) && IsOrder(b, |subs|)
    ensures Collected(prior, subs, a).Keys == Collected(prior, subs, b).Keys
  {
    forall id ensures id in Collected(prior, subs, a) <==> id in Collected(prior, subs, b) {
      CollectedAt(prior, subs, a, id);
      CollectedAt(prior, subs, b, id);
      HitsDoNotDependOnOrder(subs, a, id);
      HitsDoNotDependOnOrder(subs, b, id);
    }
  }

  lemma CompatibleIsIndependent(prior: map<string, Lead>, subs: seq<Submission>, a: seq<nat>, b: seq<nat>)
    requires Compatible(subs) && IsOrder(a, |subs|) && IsOrder(b, |subs|)
    ensures Collected(prior, subs, a) == Collected(prior, subs, b)
  {
    SameKeys(prior, subs, a, b);
    forall id | id in Collected(prior, subs, a)
      ensures Collected(prior, subs, a)[id] == Collected(prior, subs, b)[id]
    {
      CollectedAt(prior, subs, a, id);
      CollectedAt(prior, subs, b, id);
      HitsDoNotDependOnOrder(subs, a, id);
      HitsDoNotDependOnOrder(subs, b, id);
    }
  }

  /** A completion order in which future f is the last. */
  function EndingWith(n: nat, f: nat): seq<nat>
    requires f < n
  {
    seq(n, i requires 0 <= i < n => if i < f then i else if i < n - 1 then i + 1 else f)
  }

  lemma EndingWithIsOrder(n: nat, f: nat)
    requires f < n
    ensures IsOrder(EndingWith(n, f), n) && EndingWith(n, f)[n - 1] == f
  {
    var order := EndingWith(n, f);
    forall g: nat | g < n ensures g in order {
      assert order[if g < f then g else if g == f then n - 1 else g - 1] == g;
    }
  }

  lemma {:induction false} EqualReportsEqualLeads(
    subs: seq<Submission>, a: map<string, Lead>, b: map<string, Lead>, f: nat)
    requires a.Keys == b.Keys && Report(subs, a) == Report(subs, b)
    requires f < |subs| && subs[f].externalId in a
    ensures a[subs[f].externalId] == b[subs[f].externalId]
    decreases |subs|
  {
    var last := |subs| - 1;
    var before := subs[..last];
    if subs[last].externalId in a {
      var x, y := Report(subs, a), Report(subs, b);
      assert x[..|x| - 1] == Report(before, a) && y[..|y| - 1] == Report(before, b);
      assert x[|x| - 1] == a[subs[last].externalId] && y[|y| - 1] == b[subs[last].externalId];
    } else {
      assert Report(subs, a) == Report(before, a) && Report(subs, b) == Report(before, b);
    }
    if f < last {
      EqualReportsEqualLeads(before, a, b, f);
    }
  }

  lemma IncompatibleDepends(prior: map<string, Lead>, subs: seq<Submission>, i: nat, j: nat)
    requires i < |subs| && j < |subs| && subs[i].externalId == subs[j].externalId
    requires subs[i].audit.Some? && subs[j].audit.Some? && subs[i].audit != subs[j].audit
    ensures Report(subs, Collected(prior, subs, EndingWith(|subs|, i)))
         != Report(subs, Collected(prior, subs, EndingWith(|subs|, j)))
  {
    var a, b := EndingWith(|subs|, i), EndingWith(|subs|, j);
    EndingWithIsOrder(|subs|, i);
    EndingWithIsOrder(|subs|, j);
    SameKeys(prior, subs, a, b);
    if Report(subs, Collected(prior, subs, a)) == Report(subs, Collected(prior, subs, b)) {
      EqualReportsEqualLeads(subs, Collected(prior, subs, a), Collected(prior, subs, b), i);
      assert false;
    }
  }

  /** The report is the same for every completion order if and only if audits of the same external id
      agree. */
  lemma ScheduleIndependence(prior: map<string, Lead>, subs: seq<Submission>)
    ensures (forall a, b | IsOrder(a, |subs|) && IsOrder(b, |subs|) ::
               Report(subs, Collected(prior, subs, a)) == Report(subs, Collected(prior, subs, b)))
       <==> Compatible(subs)
  {
    if Compatible(subs) {
      forall a, b | IsOrder(a, |subs|) && IsOrder(b, |subs|)
        ensures Report(subs, Collected(prior, subs, a)) == Report(subs, Collected(prior, subs, b))
      {
        CompatibleIsIndependent(prior, subs, a, b);
      }
    } else {
      var i: nat, j: nat :| i < |subs| && j < |subs| && subs[i].externalId == subs[j].externalId
        && subs[i].audit.Some? && subs[j].audit.Some? && subs[i].audit != subs[j].audit;
      IncompatibleDepends(prior, subs, i, j);
      EndingWithIsOrder(|subs|, i);
      EndingWithIsOrder(|subs|, j);
    }
  }

  /** Candidates of one provider have distinct external ids. */
  lemma {:induction false} OneProviderHasDistinctIds(
    places: seq<Candidate>, crawls: Candidate -> Crawl, provider: string)
    requires DistinctKeys(places) && forall c | c in places :: c.provider == provider
    ensures DistinctIds(Submissions(places, crawls))
    ensures forall s | s in Submissions(places, crawls) :: exists c :: c in places && c.externalId == s.externalId
  {
    if places != [] {
      var last := |places| - 1;
      OneProviderHasDistinctIds(places[..last], crawls, provider);
      var before, subs := Submissions(places[..last], crawls), Submissions(places, crawls);
      forall s | s in before ensures exists c :: c in places && c.externalId == s.externalId {
        var c :| c in places[..last] && c.externalId == s.externalId;
        assert c in places;
      }
      if crawls(places[last]).Accepted? {
        forall i | 0 <= i < |before| ensures before[i].externalId != places[last].externalId {
          assert before[i] in before;
          var c :| c in places[..last] && c.externalId == before[i].externalId;
          var k :| 0 <= k < last && places[k] == c;
          assert Key(places[k]) != Key(places[last]);
        }
        assert places[last] in places;
      }
    }
  }

  ghost predicate OneProvider(found: seq<Candidate>) {
    forall c, d | c in found && d in found :: c.provider == d.provider
  }

  /** The table has no lead of any candidate yet. */
  ghost predicate Unknown(found: seq<Candidate>, leads: map<string, Lead>) {
    forall c | c in found :: c.externalId !in leads
  }

  /** No audit failed whose id the table had already. */
  ghost predicate NoneStale(prior: map<string, Lead>, subs: seq<Submission>) {
    forall f: nat | f < |subs| && subs[f].audit.None? :: subs[f].externalId !in prior
  }

  lemma OneProviderReport(
    found: seq<Candidate>, social: string -> bool, crawls: Candidate -> Crawl, prior: map<string, Lead>,
    order: seq<nat>)
    requires OneProvider(found)
    requires IsOrder(order, |Submissions(WithoutSocial(FirstSeen(found), social), crawls)|)
    ensures var subs := Submissions(WithoutSocial(FirstSeen(found), social), crawls);
      && (Report(subs, Collected(prior, subs, order)) == Successes(subs) <==> NoneStale(prior, subs))
      && (Unknown(found, prior) ==> NoneStale(prior, subs))
  {
    var places := WithoutSocial(FirstSeen(found), social);
    KeysAreDistinct(found);
    FilteringKeepsDistinct(FirstSeen(found), social);
    var provider := if found == [] then "" else found[0].provider;
    forall c | c in places ensures c in found && c.provider == provider {
      CollectedAreTheFirst(found, c);
    }
    OneProviderHasDistinctIds(places, crawls, provider);
    ReportIsTheSuccesses(prior, Submissions(places, crawls), order);
    if Unknown(found, prior) {
      UnknownIsNotStale(found, places, crawls, prior);
    }
  }

  lemma UnknownIsNotStale(
    found: seq<Candidate>, places: seq<Candidate>, crawls: Candidate -> Crawl, prior: map<string, Lead>)
    requires Unknown(found, prior) && forall c | c in places :: c in found
    requires forall s | s in Submissions(places, crawls) :: exists c :: c in places && c.externalId == s.externalId
    ensures NoneStale(prior, Submissions(places, crawls))
  {
    var subs := Submissions(places, crawls);
    forall f: nat | f < |subs| ensures subs[f].externalId !in prior {
      assert subs[f] in subs;
      var c :| c in places && c.externalId == subs[f].externalId;
    }
  }

  /** With distinct ids, whatever the schedule, the report is the successful audits in submission order if
      and only if no audit failed whose id the table had already. */
  lemma ReportIsTheSuccesses(prior: map<string, Lead>, subs: seq<Submission>, order: seq<nat>)
    requires DistinctIds(subs) && IsOrder(order, |subs|)
    ensures Report(subs, Collected(prior, subs, order)) == Successes(subs) <==> NoneStale(prior, subs)
  {
    var leads := Collected(prior, subs, order);
    forall f: nat | f < |subs|
      ensures subs[f].externalId in leads <==> subs[f].audit.Some? || subs[f].externalId in prior
      ensures subs[f].audit.Some? ==> leads[subs[f].externalId] == subs[f].audit.value
    {
      CollectedAt(prior, subs, order, subs[f].externalId);
      HitsDoNotDependOnOrder(subs, order, subs[f].externalId);
    }
    if NoneStale(prior, subs) {
      ReportOfMatching(subs, leads);
    } else {
      var f: nat :| f < |subs| && subs[f].audit.None? && subs[f].externalId in prior;
      ReportIsLonger(subs, leads, f);
    }
  }

  lemma {:induction false} ReportOfMatching(subs: seq<Submission>, leads: map<string, Lead>)
    requires forall f: nat | f < |subs| ::
      && (subs[f].externalId in leads <==> subs[f].audit.Some?)
      && (subs[f].audit.Some? ==> leads[subs[f].externalId] == subs[f].audit.value)
    ensures Report(subs, leads) == Successes(subs)
  {
    if subs != [] {
      ReportOfMatching(subs[..|subs| - 1], leads);
    }
  }

  /** A lead reported for a failed audit is one more than the successes. */
  lemma {:induction false} ReportIsLonger(subs: seq<Submission>, leads: map<string, Lead>, f: int)
    requires forall g: nat | g < |subs| && subs[g].audit.Some? :: subs[g].externalId in leads
    ensures |Report(subs, leads)| >= |Successes(subs)|
    ensures 0 <= f < |subs| && subs[f].audit.None? && subs[f].externalId in leads ==>
      |Report(subs, leads)| > |Successes(subs)|
  {
    if subs != [] {
      ReportIsLonger(subs[..|subs| - 1], leads, f);
    }
  }

  // ----- The same, read off what the scrapers found -----

  /** Joining the keywords' results keeps every place, in order. */
  lemma {:induction false} FlattenJoins(found: seq<seq<Candidate>>, more: seq<seq<Candidate>>, places: seq<Candidate>)
    ensures Flatten([]) == [] && Flatten([places]) == places
    ensures Flatten(found + more) == Flatten(found) + Flatten(more)
    decreases |more|
  {
    assert [places][..0] == [];
    if more == [] {
      assert found + more == found;
    } else {
      var last := |more| - 1;
      FlattenJoins(found, more[..last], places);
      assert (found + more)[..|found| + last] == found + more[..last];
    }
  }

  lemma WithoutSocialOfAppend(places: seq<Candidate>, c: Candidate, social: string -> bool)
    ensures WithoutSocial(places + [c], social)
         == WithoutSocial(places, social) + if social(c.website) then [] else [c]
  {
    assert (places + [c])[..|places|] == places;
  }

  lemma SubmissionsOfAppend(places: seq<Candidate>, c: Candidate, crawls: Candidate -> Crawl)
    ensures Submissions(places + [c], crawls)
         == Submissions(places, crawls) + match crawls(c) case Dropped => []
                                          case Accepted(audit) => [Submission(c.externalId, audit)]
  {
    assert (places + [c])[..|places|] == places;
  }

  /** The filter keeps exactly the places that are not of a social domain, in their order. */
  lemma {:induction false} SocialDomainsAreDropped(places: seq<Candidate>, social: string -> bool)
    returns (ps: seq<nat>)
    ensures Increasing(ps) && forall n: nat :: n in ps <==> n < |places| && !social(places[n].website)
    ensures |WithoutSocial(places, social)| == |ps|
    ensures forall i | 0 <= i < |ps| :: ps[i] < |places| && WithoutSocial(places, social)[i] == places[ps[i]]
  {
    ps := [];
    if places != [] {
      var last := |places| - 1;
      var before := SocialDomainsAreDropped(places[..last], social);
      ps := before + if social(places[last].website) then [] else [last];
      forall n: nat ensures n in ps <==> n < |places| && !social(places[n].website) {
        assert n in ps <==> n in before || (n == last && !social(places[last].website));
      }
      forall i | 0 <= i < |before| ensures before[i] < last {
        assert before[i] in before;
      }
    }
  }

  /** The n-th place found is the first with its key and a website, is not of a social domain, and its crawl
      was accepted. */
  ghost predicate Accepts(found: seq<Candidate>, social: string -> bool, crawls: Candidate -> Crawl, n: nat) {
    FirstWithKey(found, n) && !social(found[n].website) && crawls(found[n]).Accepted?
  }

  ghost predicate AreSubmitted(
    found: seq<Candidate>, social: string -> bool, crawls: Candidate -> Crawl, subs: seq<Submission>, ps: seq<nat>)
  {
    && Increasing(ps) && (forall n: nat :: n in ps <==> Accepts(found, social, crawls, n))
    && |subs| == |ps|
    && forall i | 0 <= i < |ps| ::
         && ps[i] < |found| && subs[i].externalId == found[ps[i]].externalId
         && crawls(found[ps[i]]) == Accepted(subs[i].audit)
  }

  /** What is submitted are the audits of the accepted places, in the order in which they were found. */
  lemma {:induction false} SubmittedPlaces(found: seq<Candidate>, social: string -> bool, crawls: Candidate -> Crawl)
    returns (ps: seq<nat>)
    ensures AreSubmitted(found, social, crawls, Submissions(WithoutSocial(FirstSeen(found), social), crawls), ps)
  {
    ps := [];
    if found != [] {
      var last := |found| - 1;
      var front := found[..last];
      var before := SubmittedPlaces(front, social, crawls);
      ps := before + if Accepts(found, social, crawls, last) then [last] else [];
      SubmissionsGrow(found, social, crawls);
      SubmittedGrow(
        found, social, crawls, Submissions(WithoutSocial(FirstSeen(front), social), crawls),
        Submissions(WithoutSocial(FirstSeen(found), social), crawls), before, ps);
    }
  }

  /** One more place is submitted when it is accepted. */
  lemma SubmissionsGrow(found: seq<Candidate>, social: string -> bool, crawls: Candidate -> Crawl)
    requires found != []
    ensures var last := |found| - 1;
      Submissions(WithoutSocial(FirstSeen(found), social), crawls)
      == Submissions(WithoutSocial(FirstSeen(found[..last]), social), crawls)
         + if Accepts(found, social, crawls, last)
           then [Submission(found[last].externalId, crawls(found[last]).audit)] else []
  {
    var last := |found| - 1;
    var front, c := found[..last], found[last];
    KeysAreKept(front, Key(c));
    var seen := FirstSeen(front);
    if c.website != "" && !HasKey(front, Key(c)) {
      assert FirstSeen(found) == seen + [c] && FirstWithKey(found, last);
      CollectedGrow(seen, c, social, crawls);
    } else {
      assert FirstSeen(found) == seen && !FirstWithKey(found, last);
    }
  }

  lemma CollectedGrow(seen: seq<Candidate>, c: Candidate, social: string -> bool, crawls: Candidate -> Crawl)
    ensures Submissions(WithoutSocial(seen + [c], social), crawls)
         == Submissions(WithoutSocial(seen, social), crawls)
            + if !social(c.website) && crawls(c).Accepted? then [Submission(c.externalId, crawls(c).audit)] else []
  {
    WithoutSocialOfAppend(seen, c, social);
    var kept := WithoutSocial(seen, social);
    if social(c.website) {
      assert kept + [] == kept;
    } else {
      SubmissionsOfAppend(kept, c, crawls);
    }
  }

  lemma AcceptsInFront(found: seq<Candidate>, social: string -> bool, crawls: Candidate -> Crawl, n: nat)
    requires n < |found| - 1
    ensures Accepts(found, social, crawls, n) <==> Accepts(found[..|found| - 1], social, crawls, n)
  {
    assert found[..|found| - 1][..n] == found[..n];
  }

  lemma SubmittedGrow(
    found: seq<Candidate>, social: string -> bool, crawls: Candidate -> Crawl, earlier: seq<Submission>,
    subs: seq<Submission>, before: seq<nat>, ps: seq<nat>)
    requires found != [] && AreSubmitted(found[..|found| - 1], social, crawls, earlier, before)
    requires var last := |found| - 1; var accepted := Accepts(found, social, crawls, last);
      && ps == before + (if accepted then [last] else [])
      && subs == earlier
         + if accepted then [Submission(found[last].externalId, crawls(found[last]).audit)] else []
    ensures AreSubmitted(found, social, crawls, subs, ps)
  {
    forall n: nat ensures n in before <==> n < |found| - 1 && Accepts(found, social, crawls, n) {
      if n < |found| - 1 {
        AcceptsInFront(found, social, crawls, n);
      }
    }
    OneMoreAccepted(found, social, crawls, before, ps);
    forall i | 0 <= i < |before| ensures before[i] < |found| - 1 {
      assert before[i] in before;
    }
  }

  lemma OneMoreAccepted(
    found: seq<Candidate>, social: string -> bool, crawls: Candidate -> Crawl, before: seq<nat>, ps: seq<nat>)
    requires found != [] && Increasing(before)
    requires ps == before + if Accepts(found, social, crawls, |found| - 1) then [|found| - 1] else []
    requires forall n: nat :: n in before <==> n < |found| - 1 && Accepts(found, social, crawls, n)
    ensures Increasing(ps) && forall n: nat :: n in ps <==> Accepts(found, social, crawls, n)
  {
    forall i | 0 <= i < |before| ensures before[i] < |found| - 1 {
      assert before[i] in before;
    }
    forall n: nat ensures n in ps <==> Accepts(found, social, crawls, n) {
      assert n in ps <==> n in before || (n == |found| - 1 && Accepts(found, social, crawls, n));
    }
  }

  /** The audit of the n-th place succeeds. */
  ghost predicate Succeeds(found: seq<Candidate>, social: string -> bool, crawls: Candidate -> Crawl, n: nat) {
    Accepts(found, social, crawls, n) && crawls(found[n]).audit.Some?
  }

  ghost predicate ReportsAt(
    found: seq<Candidate>, social: string -> bool, crawls: Candidate -> Crawl, report: seq<Lead>, ps: seq<nat>)
  {
    && Increasing(ps) && (forall n: nat :: n in ps <==> Succeeds(found, social, crawls, n))
    && |report| == |ps|
    && forall i | 0 <= i < |ps| ::
         ps[i] < |found| && crawls(found[ps[i]]) == Accepted(Some(report[i]))
  }

  /** The report is the leads of the places whose audit succeeds, in the order in which they were found. */
  ghost predicate ReportsSuccessful(
    found: seq<Candidate>, social: string -> bool, crawls: Candidate -> Crawl, report: seq<Lead>)
  {
    exists ps :: ReportsAt(found, social, crawls, report, ps)
  }

  lemma {:induction false} SuccessesArePicked(subs: seq<Submission>) returns (qs: seq<nat>)
    ensures Increasing(qs) && forall f: nat :: f in qs <==> f < |subs| && subs[f].audit.Some?
    ensures |Successes(subs)| == |qs|
    ensures forall i | 0 <= i < |qs| :: qs[i] < |subs| && subs[qs[i]].audit == Some(Successes(subs)[i])
  {
    qs := [];
    if subs != [] {
      var last := |subs| - 1;
      var before := SuccessesArePicked(subs[..last]);
      qs := before + if subs[last].audit.Some? then [last] else [];
      forall f: nat ensures f in qs <==> f < |subs| && subs[f].audit.Some? {
        assert f in qs <==> f in before || (f == last && subs[last].audit.Some?);
      }
      forall i | 0 <= i < |before| ensures before[i] < last {
        assert before[i] in before;
      }
    }
  }

  /** Picking positions of positions. */
  function At(ps: seq<nat>, qs: seq<nat>): (picked: seq<nat>)
    requires forall i | 0 <= i < |qs| :: qs[i] < |ps|
    ensures |picked| == |qs| && forall i | 0 <= i < |qs| :: picked[i] == ps[qs[i]]
  {
    if qs == [] then [] else At(ps, qs[..|qs| - 1]) + [ps[qs[|qs| - 1]]]
  }

  /** The successful audits of what is submitted are those of the places found. */
  lemma SuccessesAreReported(found: seq<Candidate>, social: string -> bool, crawls: Candidate -> Crawl)
    returns (ps: seq<nat>)
    ensures ReportsAt(
      found, social, crawls, Successes(Submissions(WithoutSocial(FirstSeen(found), social), crawls)), ps)
  {
    var subs := Submissions(WithoutSocial(FirstSeen(found), social), crawls);
    var places := SubmittedPlaces(found, social, crawls);
    var qs := SuccessesArePicked(subs);
    ps := At(places, qs);
    forall n: nat ensures n in ps <==> Succeeds(found, social, crawls, n) {
      PickedSucceed(found, social, crawls, subs, places, qs, n);
    }
  }

  lemma PickedSucceed(
    found: seq<Candidate>, social: string -> bool, crawls: Candidate -> Crawl, subs: seq<Submission>,
    places: seq<nat>, qs: seq<nat>, n: nat)
    requires AreSubmitted(found, social, crawls, subs, places)
    requires forall f: nat :: f in qs <==> f < |subs| && subs[f].audit.Some?
    requires forall i | 0 <= i < |qs| :: qs[i] < |subs|
    ensures n in At(places, qs) <==> Succeeds(found, social, crawls, n)
  {
    if Succeeds(found, social, crawls, n) {
      assert n in places;
      var f: nat :| f < |places| && places[f] == n;
      assert f in qs;
      var i :| 0 <= i < |qs| && qs[i] == f;
      assert At(places, qs)[i] == n;
    }
    if n in At(places, qs) {
      var i :| 0 <= i < |qs| && At(places, qs)[i] == n;
      assert qs[i] in qs && places[qs[i]] in places;
    }
  }

  /** Only one report is that of the successful audits. */
  lemma ReportIsUnique(
    found: seq<Candidate>, social: string -> bool, crawls: Candidate -> Crawl, a: seq<Lead>, b: seq<Lead>)
    requires ReportsSuccessful(found, social, crawls, a) && ReportsSuccessful(found, social, crawls, b)
    ensures a == b
  {
    var ps :| ReportsAt(found, social, crawls, a, ps);
    var qs :| ReportsAt(found, social, crawls, b, qs);
    IncreasingIsUnique(ps, qs);
  }

  /** No audit of a place found failed whose id the table had already. */
  ghost predicate NoneLeftOver(
    found: seq<Candidate>, social: string -> bool, crawls: Candidate -> Crawl, prior: map<string, Lead>)
  {
    forall n: nat | Accepts(found, social, crawls, n) && crawls(found[n]).audit.None? ::
      found[n].externalId !in prior
  }

  lemma NoneStaleIsNoneLeftOver(
    found: seq<Candidate>, social: string -> bool, crawls: Candidate -> Crawl, prior: map<string, Lead>)
    ensures NoneStale(prior, Submissions(WithoutSocial(FirstSeen(found), social), crawls))
       <==> NoneLeftOver(found, social, crawls, prior)
  {
    var subs := Submissions(WithoutSocial(FirstSeen(found), social), crawls);
    var ps := SubmittedPlaces(found, social, crawls);
    if NoneLeftOver(found, social, crawls, prior) {
      forall f: nat | f < |subs| && subs[f].audit.None? ensures subs[f].externalId !in prior {
        assert ps[f] in ps;
      }
    }
    if NoneStale(prior, subs) {
      forall n: nat | Accepts(found, social, crawls, n) && crawls(found[n]).audit.None?
        ensures found[n].externalId !in prior
      {
        assert n in ps;
        var f: nat :| f < |ps| && ps[f] == n;
        assert subs[f].audit.None?;
      }
    }
  }

  /** For places of one provider: a run reports exactly the leads of the places whose audit succeeds, in the
      order in which they were found, if and only if no audit failed whose id the table had already. */
  lemma OneProviderReportsPlaces(
    found: seq<Candidate>, social: string -> bool, crawls: Candidate -> Crawl, prior: map<string, Lead>,
    order: seq<nat>)
    requires OneProvider(found)
    requires IsOrder(order, |Submissions(WithoutSocial(FirstSeen(found), social), crawls)|)
    ensures var subs := Submissions(WithoutSocial(FirstSeen(found), social), crawls);
      && (ReportsSuccessful(found, social, crawls, Report(subs, Collected(prior, subs, order)))
          <==> NoneLeftOver(found, social, crawls, prior))
      && (Unknown(found, prior) ==> NoneLeftOver(found, social, crawls, prior))
  {
    var subs := Submissions(WithoutSocial(FirstSeen(found), social), crawls);
    OneProviderReport(found, social, crawls, prior, order);
    NoneStaleIsNoneLeftOver(found, social, crawls, prior);
    var ps := SuccessesAreReported(found, social, crawls);
    var report := Report(subs, Collected(prior, subs, order));
    if ReportsSuccessful(found, social, crawls, report) {
      ReportIsUnique(found, social, crawls, report, Successes(subs));
    }
  }

  // ----- Conditions on the ids alone -----

  function WithAudits(ids: seq<string>, audits: seq<Option<Lead>>): seq<Submission>
    requires |ids| == |audits|
  {
    seq(|ids|, i requires 0 <= i < |ids| => Submission(ids[i], audits[i]))
  }

  ghost predicate Distinct(ids: seq<string>) {
    forall i, j | 0 <= i < j < |ids| :: ids[i] != ids[j]
  }

  ghost predicate ReportsSuccesses(
    prior: map<string, Lead>, ids: seq<string>, order: seq<nat>, audits: seq<Option<Lead>>)
    requires |ids| == |audits|
  {
    var subs := WithAudits(ids, audits);
    Report(subs, Collected(prior, subs, order)) == Successes(subs)
  }

  /** The report is the successful audits for every outcome of the audits if and only if the table has
      none of the submitted ids: an orchestrator is reusable exactly for new ids. */
  lemma ReusableForNewIds(prior: map<string, Lead>, ids: seq<string>, order: seq<nat>)
    requires Distinct(ids) && IsOrder(order, |ids|)
    ensures (forall audits: seq<Option<Lead>> | |audits| == |ids| :: ReportsSuccesses(prior, ids, order, audits))
       <==> forall i | 0 <= i < |ids| :: ids[i] !in prior
  {
    forall audits: seq<Option<Lead>> | |audits| == |ids|
      ensures ReportsSuccesses(prior, ids, order, audits) <==> NoneStale(prior, WithAudits(ids, audits))
    {
      ReportIsTheSuccesses(prior, WithAudits(ids, audits), order);
    }
    if i :| 0 <= i < |ids| && ids[i] in prior {
      var failed: seq<Option<Lead>> := seq(|ids|, _ => None);
      assert WithAudits(ids, failed)[i].audit.None?;
      assert !ReportsSuccesses(prior, ids, order, failed);
    }
  }

  ghost predicate IndependentWith(prior: map<string, Lead>, ids: seq<string>, audits: seq<Option<Lead>>)
    requires |ids| == |audits|
  {
    var subs := WithAudits(ids, audits);
    forall a, b | IsOrder(a, |subs|) && IsOrder(b, |subs|) ::
      Report(subs, Collected(prior, subs, a)) == Report(subs, Collected(prior, subs, b))
  }

  lemma SharedIdIsIncompatible(ids: seq<string>, i: nat, j: nat) returns (audits: seq<Option<Lead>>)
    requires i < j < |ids| && ids[i] == ids[j]
    ensures |audits| == |ids| && !Compatible(WithAudits(ids, audits))
  {
    audits := seq(|ids|, k => Some(Lead("", if k == i then "a" else "b")));
    var subs := WithAudits(ids, audits);
    assert subs[i].audit != subs[j].audit;
  }

  /** The report does not depend on the schedule, for every outcome of the audits, if and only if the
      submitted ids are distinct. */
  lemma IndependentForDistinctIds(prior: map<string, Lead>, ids: seq<string>)
    ensures (forall audits: seq<Option<Lead>> | |audits| == |ids| :: IndependentWith(prior, ids, audits))
       <==> Distinct(ids)
  {
    if Distinct(ids) {
      forall audits: seq<Option<Lead>> | |audits| == |ids| ensures IndependentWith(prior, ids, audits) {
        ScheduleIndependence(prior, WithAudits(ids, audits));
      }
    } else {
      var i: nat, j: nat :| i < j < |ids| && ids[i] == ids[j];
      var audits := SharedIdIsIncompatible(ids, i, j);
      ScheduleIndependence(prior, WithAudits(ids, audits));
      assert !IndependentWith(prior, ids, audits);
    }
  }

  // ----- Reused orchestrators and several providers -----

  /** After a run that audited an id with success, a run in which the audit of that id fails does not
      report its successes: it reports the lead of the earlier run. */
  lemma StaleLeadIsReported(
    prior: map<string, Lead>, first: seq<Submission>, a: seq<nat>, f: nat, subs: seq<Submission>, b: seq<nat>, g: nat)
    requires IsOrder(a, |first|) && DistinctIds(subs) && IsOrder(b, |subs|)
    requires f < |first| && first[f].audit.Some?
    requires g < |subs| && subs[g].audit.None? && subs[g].externalId == first[f].externalId
    ensures var table := Collected(prior, first, a);
      var leads := Collected(table, subs, b);
      && Report(subs, leads) != Successes(subs)
      && subs[g].externalId in table && subs[g].externalId in leads
      && leads[subs[g].externalId] == table[subs[g].externalId]
  {
    var id, table := subs[g].externalId, Collected(prior, first, a);
    CollectedAt(prior, first, a, id);
    HitsDoNotDependOnOrder(first, a, id);
    assert Hits(first[f], id);
    CollectedAt(table, subs, b, id);
    HitsDoNotDependOnOrder(subs, b, id);
    ReportIsTheSuccesses(table, subs, b);
  }

  lemma BothAreKept(a: Candidate, b: Candidate)
    requires a.website != "" && b.website != "" && Key(a) != Key(b)
    ensures FirstSeen([a, b]) == [a, b]
  {
    FirstSeenOfAppend([], a);
    FirstSeenOfAppend([a], b);
    assert [] + [a] == [a] && [a] + [b] == [a, b];
  }

  lemma BothAreSubmitted(a: Candidate, b: Candidate, crawls: Candidate -> Crawl)
    requires crawls(a).Accepted? && crawls(b).Accepted?
    ensures Submissions([a, b], crawls)
         == [Submission(a.externalId, crawls(a).audit), Submission(b.externalId, crawls(b).audit)]
  {
    assert [a, b][..1] == [a] && [a][..0] == [];
    assert Submissions([a], crawls) == [Submission(a.externalId, crawls(a).audit)];
  }

  /** Two providers may use the same external id; both candidates are kept, and when both audits succeed
      the report depends on which one completes last. */
  lemma TwoProvidersMayCollide(first: Lead, second: Lead)
    requires first != second
    ensures var found := [Candidate("a", "id", "w"), Candidate("b", "id", "w")];
      var crawls := (c: Candidate) => Accepted(Some(if c.provider == "a" then first else second));
      var subs := Submissions(FirstSeen(found), crawls);
      && FirstSeen(found) == found
      && Report(subs, Collected(map[], subs, [0, 1])) != Report(subs, Collected(map[], subs, [1, 0]))
  {
    var a, b := Candidate("a", "id", "w"), Candidate("b", "id", "w");
    var found := [a, b];
    var crawls := (c: Candidate) => Accepted(Some(if c.provider == "a" then first else second));
    BothAreKept(a, b);
    BothAreSubmitted(a, b, crawls);
    assert FirstSeen(found) == found;
    var subs := Submissions(FirstSeen(found), crawls);
    assert subs == [Submission("id", Some(first)), Submission("id", Some(second))];
    assert EndingWith(2, 1) == [0, 1] && EndingWith(2, 0) == [1, 0];
    IncompatibleDepends(map[], subs, 1, 0);
  }
}
