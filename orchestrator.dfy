/**
 * The run's decision logic (the body of `main` after the candidates are
 * collected): split the candidates into seen and unseen by key, then take
 * exactly one of the dry-run, first-run baseline and delivery branches, and
 * decide whether the store is saved.
 *
 * The webhook is the oracle `network`: `network(i)(k)` is what the k-th
 * attempt to post the i-th unseen event yields. The clock is the oracle
 * `clock`: `clock(n)` is the text of the n-th timestamp taken during the run.
 */
module Orchestrator {
  import opened Base
  import Text
  import Keyer
  import opened State
  import opened Collector
  import Format
  import Delivery

  /** A candidate together with its dedupe key (`event["key"]`). */
  datatype Keyed = Keyed(key: string, event: CandidateEvent)

  datatype Branch = DryRun | Baseline | Deliver

  /** What a run did: the branch it took, the unseen candidates, the seen
      map it ended with, how many deliveries succeeded, the texts it tried
      to post, and the store it saved (if any). */
  datatype RunReport = RunReport(
    branch: Branch,
    unseen: seq<Keyed>,
    seen: map<string, Json>,
    sent: nat,
    posted: seq<string>,
    saved: Option<DedupeState>)

  /** The key `main` computes for a candidate: the course's id, and the
      event's assignment, submission owner and comment. */
  function KeyOf(digest: Keyer.Digest, courseId: int, e: CandidateEvent): string {
    Keyer.MakeCommentKey(digest, courseId, e.assignmentId, e.submissionUserId, e.comment)
  }

  /** The record stored for a key. */
  function SeenRecord(e: CandidateEvent, savedAt: string): Json {
    JObject(map[
      "created_at" := OptStrJson(e.createdAt),
      "assignment_id" := OptIntJson(e.assignmentId),
      "author_id" := JInt(e.authorId),
      "saved_at" := JStr(savedAt)])
  }

  // ---------------------------------------------------------------------
  // Specification functions
  // ---------------------------------------------------------------------

  /** The candidates whose key is not in `seen`, in candidate order. */
  function UnseenOf(digest: Keyer.Digest, courseId: int, seen: map<string, Json>, cs: seq<CandidateEvent>)
    : seq<Keyed>
    decreases |cs|
  {
    if cs == [] then []
    else
      var n := |cs| - 1;
      var k := KeyOf(digest, courseId, cs[n]);
      UnseenOf(digest, courseId, seen, cs[..n]) + (if k in seen then [] else [Keyed(k, cs[n])])
  }

  /** The members of `u` whose key is not in `seen`. */
  function Refilter(u: seq<Keyed>, seen: map<string, Json>): seq<Keyed>
    decreases |u|
  {
    if u == [] then []
    else
      var n := |u| - 1;
      Refilter(u[..n], seen) + (if u[n].key in seen then [] else [u[n]])
  }

  function UnseenKeys(u: seq<Keyed>): set<string> {
    set i | 0 <= i < |u| :: u[i].key
  }

  /** The baseline branch's seen map: every unseen key recorded at `now`. */
  function BaselineSeen(seen: map<string, Json>, u: seq<Keyed>, now: string): map<string, Json>
    decreases |u|
  {
    if u == [] then seen
    else
      var n := |u| - 1;
      BaselineSeen(seen, u[..n], now)[u[n].key := SeenRecord(u[n].event, now)]
  }

  /** The i-th unseen event was delivered. */
  predicate Delivered(network: nat -> nat -> Delivery.Outcome, i: nat) {
    Delivery.Run(network(i), Delivery.DefaultRetries, 1).ok
  }

  function DeliveredKeys(u: seq<Keyed>, network: nat -> nat -> Delivery.Outcome): set<string> {
    set i | 0 <= i < |u| && Delivered(network, i) :: u[i].key
  }

  function DeliveredIndices(n: nat, network: nat -> nat -> Delivery.Outcome): set<nat> {
    set i: nat | i < n && Delivered(network, i)
  }

  datatype Progress = Progress(seen: map<string, Json>, sent: nat)

  /** The delivery branch's seen map and counter: a key is recorded only
      when its delivery succeeded, stamped with the next clock reading. */
  function DeliverAll(seen: map<string, Json>, u: seq<Keyed>, network: nat -> nat -> Delivery.Outcome,
                      clock: nat -> string): Progress
    decreases |u|
  {
    if u == [] then Progress(seen, 0)
    else
      var n := |u| - 1;
      var p := DeliverAll(seen, u[..n], network, clock);
      if Delivered(network, n)
      then Progress(p.seen[u[n].key := SeenRecord(u[n].event, clock(p.sent))], p.sent + 1)
      else p
  }

  /** The texts built for the unseen events, in order. */
  function Messages(u: seq<Keyed>): seq<string>
    decreases |u|
  {
    if u == [] then [] else Messages(u[..|u| - 1]) + [Format.BuildTeamsText(u[|u| - 1].event)]
  }

  /** The whole decision, given the candidates. */
  function Decision(digest: Keyer.Digest, courseId: int, candidates: seq<CandidateEvent>, loaded: Loaded,
                    dryRun: bool, policy: string, network: nat -> nat -> Delivery.Outcome,
                    clock: nat -> string): RunReport
  {
    var seen := loaded.state.seen;
    var unseen := UnseenOf(digest, courseId, seen, candidates);
    if dryRun then RunReport(DryRun, unseen, seen, 0, [], None)
    else if !loaded.existed && policy == "baseline" then
      var s := BaselineSeen(seen, unseen, clock(0));
      RunReport(Baseline, unseen, s, 0, [], Some(DedupeState(loaded.state.version, s)))
    else
      var p := DeliverAll(seen, unseen, network, clock);
      var save := p.sent > 0 || (!loaded.existed && unseen == []);
      RunReport(Deliver, unseen, p.seen, p.sent, Messages(unseen),
                if save then Some(DedupeState(loaded.state.version, p.seen)) else None)
  }

  // ---------------------------------------------------------------------
  // The run
  // ---------------------------------------------------------------------

  /** `main` from the collection of the candidates on. */
  method Notify(digest: Keyer.Digest, course: Course, groups: GroupMap, loaded: Loaded,
                dryRun: bool, policy: string, network: nat -> nat -> Delivery.Outcome,
                clock: nat -> string)
    returns (r: RunReport)
    ensures r == Decision(digest, course.id, SortByCreated(CourseEvents(course, course.assignments, groups)),
                          loaded, dryRun, policy, network, clock)
  {
    var candidates := CollectCandidateEvents(course, groups);
    var seen := loaded.state.seen;
    var unseen := Partition(digest, course.id, seen, candidates);
    if dryRun {
      // the unseen events are listed, nothing else happens
      return RunReport(DryRun, unseen, seen, 0, [], None);
    }
    if !loaded.existed && policy == "baseline" {
      var now := clock(0);
      seen := RecordBaseline(seen, unseen, now);
      return RunReport(Baseline, unseen, seen, 0, [], Some(DedupeState(loaded.state.version, seen)));
    }
    var sent, posted;
    seen, sent, posted := DeliverUnseen(seen, unseen, network, clock);
    var saved := None;
    if sent > 0 || (!loaded.existed && unseen == []) {
      saved := Some(DedupeState(loaded.state.version, seen));
    }
    r := RunReport(Deliver, unseen, seen, sent, posted, saved);
  }

  /** The loop that keys every candidate and keeps those not yet seen. */
  method Partition(digest: Keyer.Digest, courseId: int, seen: map<string, Json>, candidates: seq<CandidateEvent>)
    returns (unseen: seq<Keyed>)
    ensures unseen == UnseenOf(digest, courseId, seen, candidates)
  {
    unseen := [];
    for i := 0 to |candidates|
      invariant unseen == UnseenOf(digest, courseId, seen, candidates[..i])
    {
      assert candidates[..i + 1][..i] == candidates[..i];
      var key := KeyOf(digest, courseId, candidates[i]);
      if key !in seen {
        unseen := unseen + [Keyed(key, candidates[i])];
      }
    }
    assert candidates[..|candidates|] == candidates;
  }

  /** The baseline loop: every unseen key is recorded without delivery. */
  method RecordBaseline(seen: map<string, Json>, unseen: seq<Keyed>, now: string) returns (seen': map<string, Json>)
    ensures seen' == BaselineSeen(seen, unseen, now)
  {
    seen' := seen;
    for i := 0 to |unseen|
      invariant seen' == BaselineSeen(seen, unseen[..i], now)
    {
      assert unseen[..i + 1][..i] == unseen[..i];
      seen' := seen'[unseen[i].key := SeenRecord(unseen[i].event, now)];
    }
    assert unseen[..|unseen|] == unseen;
  }

  /** The delivery loop: each unseen event is formatted and posted; a
      failed post leaves it unrecorded. */
  method DeliverUnseen(seen: map<string, Json>, unseen: seq<Keyed>, network: nat -> nat -> Delivery.Outcome,
                       clock: nat -> string)
    returns (seen': map<string, Json>, sent: nat, posted: seq<string>)
    ensures Progress(seen', sent) == DeliverAll(seen, unseen, network, clock)
    ensures posted == Messages(unseen)
  {
    seen', sent, posted := seen, 0, [];
    for i := 0 to |unseen|
      invariant Progress(seen', sent) == DeliverAll(seen, unseen[..i], network, clock)
      invariant posted == Messages(unseen[..i])
    {
      DeliverStep(seen, unseen, network, clock, i);
      var text := Format.BuildTeamsText(unseen[i].event);
      posted := posted + [text];
      var report := Delivery.PostToTeams(network(i), Delivery.DefaultRetries);
      if !report.ok {
        continue;
      }
      seen' := seen'[unseen[i].key := SeenRecord(unseen[i].event, clock(sent))];
      sent := sent + 1;
    }
    assert unseen[..|unseen|] == unseen;
  }

  /** One more unseen event: its text is posted, and it is recorded at the
      next clock reading exactly when its delivery succeeded. */
  lemma DeliverStep(seen: map<string, Json>, u: seq<Keyed>, network: nat -> nat -> Delivery.Outcome,
                    clock: nat -> string, i: nat)
    requires i < |u|
    ensures Messages(u[..i + 1]) == Messages(u[..i]) + [Format.BuildTeamsText(u[i].event)]
    ensures var p := DeliverAll(seen, u[..i], network, clock);
      DeliverAll(seen, u[..i + 1], network, clock)
        == if Delivered(network, i) then Progress(p.seen[u[i].key := SeenRecord(u[i].event, clock(p.sent))], p.sent + 1)
           else p
  {
    assert u[..i + 1][..i] == u[..i];
  }

  // ---------------------------------------------------------------------
  // Properties of the partition
  // ---------------------------------------------------------------------

  /** The unseen list holds exactly the candidates whose key is not in the
      seen map, each with its own key. */
  lemma {:induction false} UnseenExactly(digest: Keyer.Digest, courseId: int, seen: map<string, Json>,
                                         cs: seq<CandidateEvent>)
    decreases |cs|
    ensures var u := UnseenOf(digest, courseId, seen, cs);
      && |u| <= |cs|
      && (forall i :: 0 <= i < |u| ==>
            u[i].key == KeyOf(digest, courseId, u[i].event) && u[i].key !in seen && u[i].event in cs)
      && (forall e :: e in cs && KeyOf(digest, courseId, e) !in seen ==>
            Keyed(KeyOf(digest, courseId, e), e) in u)
  {
    if cs != [] {
      var n := |cs| - 1;
      UnseenExactly(digest, courseId, seen, cs[..n]);
      assert cs == cs[..n] + [cs[n]];
    }
  }

  /** Keying against a larger seen map keeps just the members of the unseen
      list whose key it lacks. */
  lemma {:induction false} UnseenRefilter(digest: Keyer.Digest, courseId: int, seen: map<string, Json>,
                                          seen': map<string, Json>, cs: seq<CandidateEvent>)
    requires seen.Keys <= seen'.Keys
    decreases |cs|
    ensures UnseenOf(digest, courseId, seen', cs) == Refilter(UnseenOf(digest, courseId, seen, cs), seen')
  {
    if cs != [] {
      var n := |cs| - 1;
      var u := UnseenOf(digest, courseId, seen, cs[..n]);
      UnseenRefilter(digest, courseId, seen, seen', cs[..n]);
      var k := KeyOf(digest, courseId, cs[n]);
      if k !in seen {
        var x := Keyed(k, cs[n]);
        assert (u + [x])[..|u|] == u;
      } else {
        assert u + [] == u;
      }
    }
  }

  /** When every key of `u` is in `seen`, nothing of `u` is left. */
  lemma {:induction false} RefilterCovered(u: seq<Keyed>, seen: map<string, Json>)
    requires UnseenKeys(u) <= seen.Keys
    decreases |u|
    ensures Refilter(u, seen) == []
  {
    if u != [] {
      var n := |u| - 1;
      assert u[n].key in UnseenKeys(u);
      assert UnseenKeys(u[..n]) <= UnseenKeys(u) by {
        forall k | k in UnseenKeys(u[..n]) ensures k in UnseenKeys(u) {
          var i :| 0 <= i < n && u[..n][i].key == k;
          assert u[i].key == k;
        }
      }
      RefilterCovered(u[..n], seen);
    }
  }

  // ---------------------------------------------------------------------
  // Properties of the two recording loops
  // ---------------------------------------------------------------------

  /** The unseen keys are none of the seen ones. */
  predicate Fresh(u: seq<Keyed>, seen: map<string, Json>) {
    forall i :: 0 <= i < |u| ==> u[i].key !in seen
  }

  lemma FreshPrefix(u: seq<Keyed>, seen: map<string, Json>, n: nat)
    requires Fresh(u, seen) && n <= |u|
    ensures Fresh(u[..n], seen)
  {
    forall i | 0 <= i < n ensures u[..n][i].key !in seen {
      assert u[..n][i] == u[i];
    }
  }

  /** The baseline adds exactly the unseen keys and leaves every earlier
      entry as it was. */
  lemma {:induction false} BaselineKeys(seen: map<string, Json>, u: seq<Keyed>, now: string)
    requires Fresh(u, seen)
    decreases |u|
    ensures var s := BaselineSeen(seen, u, now);
      && s.Keys == seen.Keys + UnseenKeys(u)
      && (forall k :: k in seen ==> s[k] == seen[k])
  {
    if u != [] {
      var n := |u| - 1;
      FreshPrefix(u, seen, n);
      BaselineKeys(seen, u[..n], now);
      UnseenKeysSnoc(u);
    }
  }

  /** Each key the baseline adds holds a record of one of its events,
      stamped `now`. */
  lemma {:induction false} BaselineStamps(seen: map<string, Json>, u: seq<Keyed>, now: string)
    decreases |u|
    ensures var s := BaselineSeen(seen, u, now);
      forall k :: k in UnseenKeys(u) ==>
        k in s && exists i :: 0 <= i < |u| && u[i].key == k && s[k] == SeenRecord(u[i].event, now)
  {
    if u != [] {
      var n := |u| - 1;
      BaselineStamps(seen, u[..n], now);
      UnseenKeysSnoc(u);
      var s := BaselineSeen(seen, u, now);
      var s0 := BaselineSeen(seen, u[..n], now);
      forall k | k in UnseenKeys(u)
        ensures k in s && exists i :: 0 <= i < |u| && u[i].key == k && s[k] == SeenRecord(u[i].event, now)
      {
        if k == u[n].key {
          assert s[k] == SeenRecord(u[n].event, now);
        } else {
          assert k in UnseenKeys(u[..n]);
          var i :| 0 <= i < n && u[..n][i].key == k && s0[k] == SeenRecord(u[..n][i].event, now);
          assert u[i] == u[..n][i];
        }
      }
    }
  }

  lemma UnseenKeysSnoc(u: seq<Keyed>)
    requires u != []
    ensures UnseenKeys(u) == UnseenKeys(u[..|u| - 1]) + {u[|u| - 1].key}
  {
    var n := |u| - 1;
    forall k | k in UnseenKeys(u) ensures k in UnseenKeys(u[..n]) + {u[n].key} {
      var i :| 0 <= i < |u| && u[i].key == k;
      if i < n {
        assert u[..n][i].key == k;
      }
    }
    forall k | k in UnseenKeys(u[..n]) ensures k in UnseenKeys(u) {
      var i :| 0 <= i < n && u[..n][i].key == k;
      assert u[i].key == k;
    }
  }

  lemma DeliveredKeysSnoc(u: seq<Keyed>, network: nat -> nat -> Delivery.Outcome)
    requires u != []
    ensures var n := |u| - 1;
      DeliveredKeys(u, network)
      == DeliveredKeys(u[..n], network) + (if Delivered(network, n) then {u[n].key} else {})
  {
    var n := |u| - 1;
    var rhs := DeliveredKeys(u[..n], network) + (if Delivered(network, n) then {u[n].key} else {});
    forall k | k in DeliveredKeys(u, network) ensures k in rhs {
      var i :| 0 <= i < |u| && Delivered(network, i) && u[i].key == k;
      if i < n {
        assert u[..n][i].key == k;
      }
    }
    forall k | k in rhs ensures k in DeliveredKeys(u, network) {
      if k in DeliveredKeys(u[..n], network) {
        var i :| 0 <= i < n && Delivered(network, i) && u[..n][i].key == k;
        assert u[i].key == k;
      }
    }
  }

  lemma DeliveredIndicesSnoc(n: nat, network: nat -> nat -> Delivery.Outcome)
    ensures DeliveredIndices(n + 1, network)
            == DeliveredIndices(n, network) + (if Delivered(network, n) then {n} else {})
  {
  }

  /** The delivery loop adds exactly the keys whose delivery succeeded and
      leaves every earlier entry as it was. */
  lemma {:induction false} DeliveryKeys(seen: map<string, Json>, u: seq<Keyed>,
                                        network: nat -> nat -> Delivery.Outcome, clock: nat -> string)
    requires Fresh(u, seen)
    decreases |u|
    ensures var p := DeliverAll(seen, u, network, clock);
      && p.seen.Keys == seen.Keys + DeliveredKeys(u, network)
      && (forall k :: k in seen ==> p.seen[k] == seen[k])
  {
    if u != [] {
      var n := |u| - 1;
      FreshPrefix(u, seen, n);
      DeliveryKeys(seen, u[..n], network, clock);
      DeliveredKeysSnoc(u, network);
    }
  }

  /** The counter is the number of successful deliveries, so at most one
      per unseen event. */
  lemma {:induction false} DeliveryCount(seen: map<string, Json>, u: seq<Keyed>,
                                         network: nat -> nat -> Delivery.Outcome, clock: nat -> string)
    decreases |u|
    ensures var p := DeliverAll(seen, u, network, clock);
      p.sent == |DeliveredIndices(|u|, network)| && p.sent <= |u|
  {
    if u != [] {
      var n := |u| - 1;
      DeliveryCount(seen, u[..n], network, clock);
      DeliveredIndicesSnoc(n, network);
      assert n !in DeliveredIndices(n, network);
    }
  }

  /** Each record the delivery loop adds belongs to a delivered event with
      that key and is stamped with one of the run's clock readings. */
  lemma {:induction false} DeliveryStamps(seen: map<string, Json>, u: seq<Keyed>,
                                          network: nat -> nat -> Delivery.Outcome, clock: nat -> string)
    decreases |u|
    ensures StampedFrom(DeliverAll(seen, u, network, clock), u, network, clock)
  {
    if u != [] {
      var n := |u| - 1;
      DeliveryStamps(seen, u[..n], network, clock);
      DeliveredKeysSnoc(u, network);
      forall k | k in DeliveredKeys(u, network)
        ensures StampedKey(DeliverAll(seen, u, network, clock), u, network, clock, k)
      {
        StampStep(seen, u, network, clock, k);
      }
    }
  }

  /** The run's record for key `k` is a record of a delivered event with that
      key, stamped with one of the run's clock readings. */
  ghost predicate StampedKey(p: Progress, u: seq<Keyed>, network: nat -> nat -> Delivery.Outcome,
                             clock: nat -> string, k: string) {
    k in p.seen &&
    exists i, t :: 0 <= i < |u| && 0 <= t < p.sent && Delivered(network, i) && u[i].key == k
                   && p.seen[k] == SeenRecord(u[i].event, clock(t))
  }

  ghost predicate StampedFrom(p: Progress, u: seq<Keyed>, network: nat -> nat -> Delivery.Outcome,
                              clock: nat -> string) {
    forall k :: k in DeliveredKeys(u, network) ==> StampedKey(p, u, network, clock, k)
  }

  lemma StampStep(seen: map<string, Json>, u: seq<Keyed>, network: nat -> nat -> Delivery.Outcome,
                  clock: nat -> string, k: string)
    requires u != [] && k in DeliveredKeys(u, network)
    requires StampedFrom(DeliverAll(seen, u[..|u| - 1], network, clock), u[..|u| - 1], network, clock)
    requires DeliveredKeys(u, network) == DeliveredKeys(u[..|u| - 1], network)
               + (if Delivered(network, |u| - 1) then {u[|u| - 1].key} else {})
    ensures StampedKey(DeliverAll(seen, u, network, clock), u, network, clock, k)
  {
    var n := |u| - 1;
    var p := DeliverAll(seen, u[..n], network, clock);
    var q := DeliverAll(seen, u, network, clock);
    if Delivered(network, n) && k == u[n].key {
      assert q.seen[k] == SeenRecord(u[n].event, clock(p.sent));
    } else {
      assert StampedKey(p, u[..n], network, clock, k);
      var i, t :| 0 <= i < n && 0 <= t < p.sent && Delivered(network, i) && u[..n][i].key == k
                  && p.seen[k] == SeenRecord(u[..n][i].event, clock(t));
      assert u[i] == u[..n][i];
    }
  }

  // ---------------------------------------------------------------------
  // Properties of the decision
  // ---------------------------------------------------------------------

  /** No branch removes or rewrites an entry that was already seen. */
  lemma KeepsSeen(digest: Keyer.Digest, courseId: int, candidates: seq<CandidateEvent>, loaded: Loaded,
                  dryRun: bool, policy: string, network: nat -> nat -> Delivery.Outcome, clock: nat -> string)
    ensures var r := Decision(digest, courseId, candidates, loaded, dryRun, policy, network, clock);
      forall k :: k in loaded.state.seen ==> k in r.seen && r.seen[k] == loaded.state.seen[k]
  {
    var seen := loaded.state.seen;
    var u := UnseenOf(digest, courseId, seen, candidates);
    UnseenExactly(digest, courseId, seen, candidates);
    BaselineKeys(seen, u, clock(0));
    DeliveryKeys(seen, u, network, clock);
  }

  /** A dry run records nothing, posts nothing and saves nothing. */
  lemma DryRunChangesNothing(digest: Keyer.Digest, courseId: int, candidates: seq<CandidateEvent>, loaded: Loaded,
                             policy: string, network: nat -> nat -> Delivery.Outcome, clock: nat -> string)
    ensures var r := Decision(digest, courseId, candidates, loaded, true, policy, network, clock);
      && r.branch == DryRun
      && r.seen == loaded.state.seen && r.sent == 0 && r.posted == [] && r.saved == None
      && r.unseen == UnseenOf(digest, courseId, loaded.state.seen, candidates)
  {
  }

  /** On a first run with the baseline policy, exactly the unseen keys are
      added, each stamped with the run's one clock reading; nothing is
      posted and the store is saved. */
  lemma BaselineRecordsUnseen(digest: Keyer.Digest, courseId: int, candidates: seq<CandidateEvent>,
                              loaded: Loaded, network: nat -> nat -> Delivery.Outcome, clock: nat -> string)
    requires !loaded.existed
    ensures var r := Decision(digest, courseId, candidates, loaded, false, "baseline", network, clock);
      && r.branch == Baseline
      && r.seen.Keys == loaded.state.seen.Keys + UnseenKeys(r.unseen)
      && (forall k :: k in UnseenKeys(r.unseen) ==>
            exists i :: 0 <= i < |r.unseen| && r.unseen[i].key == k && r.seen[k] == SeenRecord(r.unseen[i].event, clock(0)))
      && r.sent == 0 && r.posted == []
      && r.saved == Some(DedupeState(loaded.state.version, r.seen))
  {
    var seen := loaded.state.seen;
    var u := UnseenOf(digest, courseId, seen, candidates);
    UnseenExactly(digest, courseId, seen, candidates);
    BaselineKeys(seen, u, clock(0));
    BaselineStamps(seen, u, clock(0));
  }

  /** The branch a run takes. */
  predicate IsDeliveryRun(loaded: Loaded, dryRun: bool, policy: string) {
    !dryRun && (loaded.existed || policy != "baseline")
  }

  /** In a delivery run every unseen event is formatted and posted; a key is
      added exactly when the delivery of an event with that key succeeded,
      and the counter is the number of successful deliveries. */
  lemma DeliveryRecordsSuccesses(digest: Keyer.Digest, courseId: int, candidates: seq<CandidateEvent>,
                                 loaded: Loaded, dryRun: bool, policy: string,
                                 network: nat -> nat -> Delivery.Outcome, clock: nat -> string)
    requires IsDeliveryRun(loaded, dryRun, policy)
    ensures var r := Decision(digest, courseId, candidates, loaded, dryRun, policy, network, clock);
      && r.branch == Deliver
      && r.posted == Messages(r.unseen)
      && (forall k :: k in r.seen <==>
            k in loaded.state.seen
            || exists i :: 0 <= i < |r.unseen| && r.unseen[i].key == k && Delivered(network, i))
      && r.sent == |DeliveredIndices(|r.unseen|, network)|
      && r.sent <= |r.unseen|
  {
    var seen := loaded.state.seen;
    var u := UnseenOf(digest, courseId, seen, candidates);
    UnseenExactly(digest, courseId, seen, candidates);
    DeliveryKeys(seen, u, network, clock);
    DeliveryCount(seen, u, network, clock);
  }

  /** The store is saved by a baseline run, and by a delivery run exactly
      when something was delivered or the store did not exist and there was
      nothing new; what is saved is the run's seen map at version 1. */
  lemma SavedExactly(digest: Keyer.Digest, courseId: int, candidates: seq<CandidateEvent>, loaded: Loaded,
                     dryRun: bool, policy: string, network: nat -> nat -> Delivery.Outcome, clock: nat -> string)
    requires loaded.state.version == CurrentVersion
    ensures var r := Decision(digest, courseId, candidates, loaded, dryRun, policy, network, clock);
      && (r.saved.Some? <==>
            !dryRun && ((!loaded.existed && policy == "baseline") || r.sent > 0 || (!loaded.existed && r.unseen == [])))
      && (r.saved.Some? ==> r.saved.value == DedupeState(CurrentVersion, r.seen))
  {
  }

  /** The next run over the same candidates finds unseen exactly the events
      of this run whose key it did not record: a failed delivery is tried
      again next time. */
  lemma NextRunUnseen(digest: Keyer.Digest, courseId: int, candidates: seq<CandidateEvent>, loaded: Loaded,
                      dryRun: bool, policy: string, network: nat -> nat -> Delivery.Outcome, clock: nat -> string)
    ensures var r := Decision(digest, courseId, candidates, loaded, dryRun, policy, network, clock);
      UnseenOf(digest, courseId, r.seen, candidates) == Refilter(r.unseen, r.seen)
  {
    KeepsSeen(digest, courseId, candidates, loaded, dryRun, policy, network, clock);
    var r := Decision(digest, courseId, candidates, loaded, dryRun, policy, network, clock);
    UnseenRefilter(digest, courseId, loaded.state.seen, r.seen, candidates);
  }

  /** After a baseline run, or a delivery run in which every post succeeded,
      running again over the same candidates finds nothing new. */
  lemma RerunFindsNothing(digest: Keyer.Digest, courseId: int, candidates: seq<CandidateEvent>, loaded: Loaded,
                          dryRun: bool, policy: string, network: nat -> nat -> Delivery.Outcome, clock: nat -> string)
    requires !dryRun
    requires var r := Decision(digest, courseId, candidates, loaded, dryRun, policy, network, clock);
      r.branch == Baseline || forall i :: 0 <= i < |r.unseen| ==> Delivered(network, i)
    ensures var r := Decision(digest, courseId, candidates, loaded, dryRun, policy, network, clock);
      UnseenOf(digest, courseId, r.seen, candidates) == []
  {
    var r := Decision(digest, courseId, candidates, loaded, dryRun, policy, network, clock);
    NextRunUnseen(digest, courseId, candidates, loaded, dryRun, policy, network, clock);
    if r.branch == Baseline {
      BaselineRecordsUnseen(digest, courseId, candidates, loaded, network, clock);
    } else {
      UnseenExactly(digest, courseId, loaded.state.seen, candidates);
      AllDeliveredCovers(loaded.state.seen, r.unseen, network, clock);
    }
    RefilterCovered(r.unseen, r.seen);
  }

  /** What the next run starts from: the store this run saved, read back,
      or the store it loaded when it saved nothing. */
  function NextSeen(r: RunReport, loaded: Loaded): map<string, Json> {
    if r.saved.Some? then
      match LoadState(Parsed(StateJson(r.saved.value)))
      case Ok(l) => l.state.seen
      case Err(_) => loaded.state.seen
    else loaded.state.seen
  }

  /** After a baseline run, or a delivery run in which every post succeeded,
      the next run, which loads the store this run left behind, finds nothing
      unseen among the same candidates and so sends nothing again. */
  lemma RerunFromStoreFindsNothing(digest: Keyer.Digest, courseId: int, candidates: seq<CandidateEvent>,
                                   loaded: Loaded, dryRun: bool, policy: string,
                                   network: nat -> nat -> Delivery.Outcome, clock: nat -> string)
    requires loaded.state.version == CurrentVersion
    requires !dryRun
    requires var r := Decision(digest, courseId, candidates, loaded, dryRun, policy, network, clock);
      r.branch == Baseline || forall i :: 0 <= i < |r.unseen| ==> Delivered(network, i)
    ensures var r := Decision(digest, courseId, candidates, loaded, dryRun, policy, network, clock);
      UnseenOf(digest, courseId, NextSeen(r, loaded), candidates) == []
  {
    var r := Decision(digest, courseId, candidates, loaded, dryRun, policy, network, clock);
    RerunFindsNothing(digest, courseId, candidates, loaded, dryRun, policy, network, clock);
    SavedExactly(digest, courseId, candidates, loaded, dryRun, policy, network, clock);
    if r.saved.Some? {
      SaveLoadRoundTrip(DedupeState(CurrentVersion, r.seen));
    } else {
      NothingSentNothingNew(digest, courseId, candidates, loaded, dryRun, policy, network, clock);
    }
  }

  /** A delivery run in which every post succeeded but nothing was sent had
      nothing unseen, and so ends with the seen map it loaded. */
  lemma NothingSentNothingNew(digest: Keyer.Digest, courseId: int, candidates: seq<CandidateEvent>,
                              loaded: Loaded, dryRun: bool, policy: string,
                              network: nat -> nat -> Delivery.Outcome, clock: nat -> string)
    requires IsDeliveryRun(loaded, dryRun, policy)
    requires var r := Decision(digest, courseId, candidates, loaded, dryRun, policy, network, clock);
      (forall i :: 0 <= i < |r.unseen| ==> Delivered(network, i)) && r.sent == 0
    ensures var r := Decision(digest, courseId, candidates, loaded, dryRun, policy, network, clock);
      r.unseen == [] && r.seen == loaded.state.seen
  {
    var r := Decision(digest, courseId, candidates, loaded, dryRun, policy, network, clock);
    DeliveryRecordsSuccesses(digest, courseId, candidates, loaded, dryRun, policy, network, clock);
    if r.unseen != [] {
      assert false;
    }
  }

  /** When every delivery succeeds, every unseen key is recorded. */
  lemma AllDeliveredCovers(seen: map<string, Json>, u: seq<Keyed>, network: nat -> nat -> Delivery.Outcome,
                           clock: nat -> string)
    requires Fresh(u, seen)
    requires forall i :: 0 <= i < |u| ==> Delivered(network, i)
    ensures UnseenKeys(u) <= DeliverAll(seen, u, network, clock).seen.Keys
  {
    DeliveryKeys(seen, u, network, clock);
    forall k | k in UnseenKeys(u) ensures k in DeliveredKeys(u, network) {
      var i :| 0 <= i < |u| && u[i].key == k;
      assert Delivered(network, i);
    }
  }
}
