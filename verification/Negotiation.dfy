/** Offer/answer coalescing between the subscriber side of a peer and its client. Any number of tasks
    ask for a negotiation at any time; the handler lock serializes them, and two flags keep a second offer
    from being made while the first is unanswered (section 4 of RFC 3264). A step runs from one await to
    the next. */
module Negotiation {

  /** What the task holding the handler lock is doing: waiting for create_offer, which was entered when
      `upTo` requests had been made, or for the offer to be sent. */
  datatype Holder = Free | Creating(id: nat, upTo: nat) | Offering(id: nat)

  datatype Peer = Peer(
    remoteAnswerPending: bool,
    negotiationPending: bool,
    /** Tasks in negotiate that wait for the handler lock. */
    waiting: set<nat>,
    holder: Holder,
    /** Tasks in set_remote_description: before and after the answer has been applied. */
    applying: set<nat>,
    answered: set<nat>,
    /** Offers set as local description and not answered yet. */
    unanswered: nat,
    /** Requests made, those included in an offer created after them, and offers created. */
    requests: nat,
    covered: nat,
    offers: nat)

  const INITIAL := Peer(false, false, {}, Free, {}, {}, 0, 0, 0, 0)

  datatype Step =
    | Request(id: nat)
    | Enter(id: nat)
    | Created
    | Offered
    | Answer(id: nat)
    | Applied(id: nat)
    | Finish(id: nat)

  predicate Fresh(s: Peer, id: nat) {
    && id !in s.waiting && id !in s.applying && id !in s.answered
    && (s.holder.Free? || s.holder.id != id)
  }

  predicate Enabled(s: Peer, step: Step) {
    match step
    case Request(id) => Fresh(s, id)
    case Enter(id) => id in s.waiting && s.holder.Free?
    case Created => s.holder.Creating?
    case Offered => s.holder.Offering?
    case Answer(id) => Fresh(s, id)
    case Applied(id) => id in s.applying
    case Finish(id) => id in s.answered
  }

  function Max(a: nat, b: nat): nat { if a >= b then a else b }

  function Apply(s: Peer, step: Step): Peer
    requires Enabled(s, step)
  {
    match step
    // a task changes the subscription and calls negotiate
    case Request(id) => s.(waiting := s.waiting + {id}, requests := s.requests + 1)
    // it gets the lock: with an answer outstanding it leaves a note, otherwise it starts an offer
    case Enter(id) =>
      if s.remoteAnswerPending then s.(waiting := s.waiting - {id}, negotiationPending := true)
      else s.(waiting := s.waiting - {id}, holder := Creating(id, s.requests))
    // the offer is the local description; the flag goes up before it is sent
    case Created =>
      s.(holder := Offering(s.holder.id), remoteAnswerPending := true, unanswered := s.unanswered + 1,
         covered := Max(s.covered, s.holder.upTo), offers := s.offers + 1)
    case Offered => s.(holder := Free)
    // an answer arrives, perhaps before the offer has been sent completely, perhaps for no offer at all
    case Answer(id) => s.(applying := s.applying + {id})
    // the peer connection takes it if an offer is outstanding
    case Applied(id) =>
      if s.unanswered == 0 then s.(applying := s.applying - {id})
      else s.(applying := s.applying - {id}, answered := s.answered + {id}, unanswered := s.unanswered - 1)
    // the flag comes down; if a note was left, the answering task negotiates again
    case Finish(id) =>
      if s.negotiationPending then
        s.(answered := s.answered - {id}, remoteAnswerPending := false, negotiationPending := false, waiting := s.waiting + {id})
      else s.(answered := s.answered - {id}, remoteAnswerPending := false)
  }

  ghost predicate IsRun(steps: seq<Step>)
    decreases |steps|, 0
  {
    steps != [] ==> IsRun(steps[..|steps| - 1]) && Enabled(After(steps[..|steps| - 1]), steps[|steps| - 1])
  }

  ghost function After(steps: seq<Step>): Peer
    requires IsRun(steps)
    decreases |steps|, 1
  {
    if steps == [] then INITIAL else Apply(After(steps[..|steps| - 1]), steps[|steps| - 1])
  }

  // ---------------------------------------------------------------- safety

  /** A request that no offer includes yet is not forgotten: the note is up, some task waits for the
      lock, or an offer that includes it is being created. */
  ghost predicate InHand(s: Peer, r: nat) {
    s.negotiationPending || s.waiting != {} || (s.holder.Creating? && s.holder.upTo > r)
  }

  ghost predicate Invariant(s: Peer) {
    && s.unanswered + |s.answered| == (if s.remoteAnswerPending then 1 else 0)
    && (s.holder.Creating? ==> !s.remoteAnswerPending)
    && (s.negotiationPending ==> s.remoteAnswerPending)
    && s.covered <= s.requests
    && (s.holder.Creating? ==> s.holder.upTo <= s.requests)
    && (s.covered < s.requests ==> InHand(s, s.requests - 1))
    && s.offers + Outstanding(s) <= s.requests
    && s.waiting !! s.answered && s.applying !! s.answered && s.waiting !! s.applying
    && (s.holder.Free? || (s.holder.id !in s.waiting && s.holder.id !in s.answered && s.holder.id !in s.applying))
  }

  /** Offers that can still come of the requests made so far. */
  function Outstanding(s: Peer): nat {
    |s.waiting| + (if s.holder.Creating? then 1 else 0) + (if s.negotiationPending then 1 else 0)
  }

  lemma {:induction false} StepKeeps(s: Peer, step: Step)
    requires Invariant(s) && Enabled(s, step)
    ensures Invariant(Apply(s, step))
  {
  }

  lemma {:induction false} RunKeeps(steps: seq<Step>)
    requires IsRun(steps)
    ensures Invariant(After(steps))
  {
    if steps != [] {
      RunKeeps(steps[..|steps| - 1]);
      StepKeeps(After(steps[..|steps| - 1]), steps[|steps| - 1]);
    }
  }

  /** In every run: at most one offer is unanswered at any time, every request is covered by an offer
      created after it or is in hand, and there are never more offers than requests. */
  lemma {:induction false} OffersCoalesce(steps: seq<Step>)
    requires IsRun(steps)
    ensures var s := After(steps);
            && s.unanswered <= 1
            && (forall r :: s.covered <= r < s.requests ==> InHand(s, r))
            && s.offers <= s.requests
  {
    RunKeeps(steps);
  }

  /** No new offer is begun while one is unanswered. */
  lemma {:induction false} NoOfferWhileUnanswered(steps: seq<Step>)
    requires IsRun(steps) && steps != []
    requires After(steps[..|steps| - 1]).unanswered > 0
    ensures !After(steps).holder.Creating? && After(steps).offers == After(steps[..|steps| - 1]).offers
  {
    RunKeeps(steps[..|steps| - 1]);
    RunKeeps(steps);
  }

  // ---------------------------------------------------------------- a run told by its events

  function RequestsIn(steps: seq<Step>): nat {
    if steps == [] then 0 else RequestsIn(steps[..|steps| - 1]) + if steps[|steps| - 1].Request? then 1 else 0
  }

  function OffersIn(steps: seq<Step>): nat {
    if steps == [] then 0 else OffersIn(steps[..|steps| - 1]) + if steps[|steps| - 1].Created? then 1 else 0
  }

  lemma {:induction false} RunCounts(steps: seq<Step>)
    requires IsRun(steps)
    ensures After(steps).requests == RequestsIn(steps) && After(steps).offers == OffersIn(steps)
  {
    if steps != [] { RunCounts(steps[..|steps| - 1]); }
  }

  /** The offer created by step c was begun by step e, which got the lock. */
  ghost predicate Creation(steps: seq<Step>, e: nat, c: nat): (r: bool)
    ensures r ==> e < c < |steps|
  {
    e < c < |steps| && steps[e].Enter? && steps[c].Created? && forall m :: e < m < c ==> !steps[m].Enter?
  }

  lemma {:induction false} CreatingSince(steps: seq<Step>) returns (e: nat)
    requires IsRun(steps) && After(steps).holder.Creating?
    ensures e < |steps| && steps[e].Enter? && After(steps).holder.upTo == RequestsIn(steps[..e])
    ensures forall m :: e < m < |steps| ==> !steps[m].Enter?
  {
    var init := steps[..|steps| - 1];
    if steps[|steps| - 1].Enter? {
      e := |init|;
      RunCounts(init);
    } else {
      e := CreatingSince(init);
      assert init[..e] == steps[..e];
    }
  }

  /** The requests covered are those made before the lock was taken for some offer that has been created. */
  lemma {:induction false} CoveredIff(steps: seq<Step>, n: nat)
    requires IsRun(steps)
    ensures n <= After(steps).covered <==> n == 0 || exists e: nat, c: nat :: Creation(steps, e, c) && n <= RequestsIn(steps[..e])
  {
    hide Creation;
    if steps != [] {
      var init, last := steps[..|steps| - 1], steps[|steps| - 1];
      CoveredIff(init, n);
      if e: nat, c: nat :| Creation(steps, e, c) && n <= RequestsIn(steps[..e]) {
        CreationStep(steps, e, c);
        assert c < |init| ==> Creation(init, e, c);
      }
      if e: nat, c: nat :| Creation(init, e, c) && n <= RequestsIn(init[..e]) {
        CreationStep(steps, e, c);
      }
      if last.Created? {
        var e := CreatingSince(init);
        CreationStep(steps, e, |init|);
      }
    }
  }

  lemma {:induction false} CreationStep(steps: seq<Step>, e: nat, c: nat)
    requires steps != []
    ensures var init := steps[..|steps| - 1];
            && (c < |init| ==> (Creation(steps, e, c) <==> Creation(init, e, c)))
            && (e < |steps| ==> steps[..e] == init[..e])
            && (Creation(init, e, c) ==> c < |init|)
            && (steps[|init|].Created? && e < |init| && init[e].Enter? && (forall m :: e < m < |init| ==> !init[m].Enter?) ==> Creation(steps, e, |init|))
            && (Creation(steps, e, |init|) ==>
                  steps[|init|].Created? && e < |init| && init[e].Enter? && forall m :: e < m < |init| ==> !init[m].Enter?)
  {
    var init := steps[..|steps| - 1];
    assert forall m :: 0 <= m < |init| ==> steps[m] == init[m];
  }

  /** The offer created by step c has not been finished. */
  ghost predicate Open(steps: seq<Step>, c: nat): (r: bool)
    ensures r ==> c < |steps|
  {
    c < |steps| && steps[c].Created? && forall m :: c < m < |steps| ==> !steps[m].Finish?
  }

  /** Step e has got the lock after step c. */
  ghost predicate Noted(steps: seq<Step>, c: nat, e: nat) { c < e < |steps| && steps[e].Enter? }

  /** The first flag is up exactly while the answer to an offer created has not been dealt with. */
  lemma {:induction false} FlagUpIff(steps: seq<Step>)
    requires IsRun(steps)
    ensures After(steps).remoteAnswerPending <==> exists c: nat :: Open(steps, c)
  {
    hide Open, Invariant;
    if steps != [] {
      var init, last := steps[..|steps| - 1], steps[|steps| - 1];
      FlagUpIff(init);
      if After(steps).remoteAnswerPending {
        var c: nat := if c: nat :| Open(init, c) then c else |init|;
        OpenStep(steps, if last.Created? then |init| else c);
      } else if c: nat :| Open(steps, c) {
        OpenStep(steps, c);
      }
    }
  }

  /** The note is left exactly if a task has got the lock since then. */
  lemma {:induction false} NoteLeftIff(steps: seq<Step>)
    requires IsRun(steps)
    ensures After(steps).negotiationPending <==> exists c: nat, e: nat :: Open(steps, c) && Noted(steps, c, e)
  {
    hide Open;
    if steps != [] {
      var init, last := steps[..|steps| - 1], steps[|steps| - 1];
      NoteLeftIff(init);
      RunKeeps(init);
      FlagUpIff(init);
      if After(steps).negotiationPending {
        var c: nat, e: nat;
        if After(init).negotiationPending {
          c, e :| Open(init, c) && Noted(init, c, e);
        } else {
          c, e :| Open(init, c) && e == |init|;
        }
        OpenStep(steps, c);
        NotedStep(steps, c, e);
      } else if c: nat, e: nat :| Open(steps, c) && Noted(steps, c, e) {
        OpenStep(steps, c);
        NotedStep(steps, c, e);
      }
    }
  }

  lemma {:induction false} OpenStep(steps: seq<Step>, c: nat)
    requires steps != []
    ensures var init, last := steps[..|steps| - 1], steps[|steps| - 1];
            Open(steps, c) <==> (Open(init, c) && !last.Finish?) || (c == |init| && last.Created?)
  {
    var init := steps[..|steps| - 1];
    if Open(steps, c) && c < |init| {
      forall m | c < m < |init| ensures !init[m].Finish? { assert steps[m] == init[m]; }
    }
  }

  lemma {:induction false} NotedStep(steps: seq<Step>, c: nat, e: nat)
    requires steps != []
    ensures var init, last := steps[..|steps| - 1], steps[|steps| - 1];
            Noted(steps, c, e) <==> Noted(init, c, e) || (c < |init| == e && last.Enter?)
  {
  }

  /** A task that gets the lock while the flag is down creates an offer for every request made so far; while
      it is up it leaves the note, and gives the lock back. */
  lemma {:induction false} EnterOffers(steps: seq<Step>, id: nat)
    requires IsRun(steps) && Enabled(After(steps), Enter(id))
    ensures if After(steps).remoteAnswerPending then
              var more := steps + [Enter(id)];
              IsRun(more) && After(more).negotiationPending && After(more).holder.Free? && OffersIn(more) == OffersIn(steps)
            else
              var more := steps + [Enter(id)] + [Created];
              IsRun(more) && After(more).covered == RequestsIn(steps) && After(more).unanswered == 1
  {
    RunKeeps(steps);
    RunCounts(steps);
    var more := Extend(steps, Enter(id));
    if !After(steps).remoteAnswerPending { more := Extend(more, Created); }
  }

  /** The answer to an unanswered offer, once dealt with, puts both flags down, and its task waits for the
      lock in the place of those that left the note. */
  lemma {:induction false} AnswerReleases(steps: seq<Step>, id: nat)
    requires IsRun(steps) && id in After(steps).applying && After(steps).unanswered > 0
    ensures var more := steps + [Applied(id)] + [Finish(id)];
            && IsRun(more)
            && After(more).unanswered == 0 && !After(more).remoteAnswerPending && !After(more).negotiationPending
            && After(more).waiting == After(steps).waiting + if After(steps).negotiationPending then {id} else {}
  {
    RunKeeps(steps);
    var more := Extend(steps, Applied(id));
    more := Extend(more, Finish(id));
  }

  // ---------------------------------------------------------------- progress

  predicate Internal(step: Step) { !step.Request? && !step.Answer? }

  /** Nothing is left to run. */
  predicate Quiet(s: Peer) {
    s.waiting == {} && s.holder.Free? && s.applying == {} && s.answered == {}
  }

  /** Whenever tasks are left, one of them can run: the lock is never held for good. */
  lemma {:induction false} NeverStuck(s: Peer)
    requires Invariant(s) && !Quiet(s)
    ensures exists step :: Enabled(s, step) && Internal(step)
  {
    if s.holder.Creating? {
      assert Enabled(s, Created) && Internal(Created);
    } else if s.holder.Offering? {
      assert Enabled(s, Offered) && Internal(Offered);
    } else if s.waiting != {} {
      var id :| id in s.waiting;
      assert Enabled(s, Enter(id)) && Internal(Enter(id));
    } else if s.applying != {} {
      var id :| id in s.applying;
      assert Enabled(s, Applied(id)) && Internal(Applied(id));
    } else {
      var id :| id in s.answered;
      assert Enabled(s, Finish(id)) && Internal(Finish(id));
    }
  }

  /** Work left, with a note worth a little less than a waiting task. */
  function Work(s: Peer): nat {
    10 * |s.waiting| + (if s.negotiationPending then 9 else 0)
    + (match s.holder case Free => 0 case Creating(_, _) => 4 case Offering(_) => 1)
    + 2 * s.unanswered + |s.applying| + 2 * |s.answered|
  }

  /** Every internal step does away with work. */
  lemma {:induction false} StepWorks(s: Peer, step: Step)
    requires Invariant(s) && Enabled(s, step) && Internal(step)
    ensures Work(Apply(s, step)) < Work(s)
  {
  }

  /** So the tasks run to an end: any run of internal steps is no longer than the work there was. */
  lemma {:induction false} RunsEnd(steps: seq<Step>, k: nat)
    requires IsRun(steps) && k <= |steps| && IsRun(steps[..k])
    requires forall i :: k <= i < |steps| ==> Internal(steps[i])
    ensures |steps| - k + Work(After(steps)) <= Work(After(steps[..k]))
  {
    if k < |steps| {
      var init := steps[..|steps| - 1];
      assert init[..k] == steps[..k];
      RunsEnd(init, k);
      RunKeeps(init);
      StepWorks(After(init), steps[|steps| - 1]);
    } else {
      assert steps[..k] == steps;
    }
  }

  /** When the tasks have run and no offer is unanswered, every request has been included in an offer
      created after it, and both flags are down. */
  lemma {:induction false} QuietMeansCovered(steps: seq<Step>)
    requires IsRun(steps) && Quiet(After(steps)) && After(steps).unanswered == 0
    ensures var s := After(steps);
            s.covered == s.requests && !s.remoteAnswerPending && !s.negotiationPending
  {
    RunKeeps(steps);
  }

  // ---------------------------------------------------------------- below await granularity

  /** Enter in two halves, as separate instructions on another thread: the flag is loaded, later the
      note is stored. */
  function LoadFlag(s: Peer, id: nat): Peer
    requires id in s.waiting && s.holder.Free? && s.remoteAnswerPending
  {
    s.(waiting := s.waiting - {id}, holder := Offering(id))
  }

  function StoreNote(s: Peer): Peer
    requires s.holder.Offering?
  {
    s.(negotiationPending := true, holder := Free)
  }

  /** If the answer is finished between the two halves, the note is left with nobody to read it: the
      request is lost until another one comes. Steps must not be split below awaits. */
  lemma {:induction false} SplitStepLosesRequest()
    ensures var steps := [Request(0), Enter(0), Created, Offered, Answer(1), Applied(1), Request(2)];
            && IsRun(steps)
            && var s := After(steps);
            && 2 in s.waiting && s.holder.Free? && s.remoteAnswerPending
            && var loaded := LoadFlag(s, 2);
            && Enabled(loaded, Finish(1))
            && var finished := Apply(loaded, Finish(1));
            && finished.holder.Offering?
            && var lost := StoreNote(finished);
            Quiet(lost) && lost.unanswered == 0 && lost.covered < lost.requests && !lost.remoteAnswerPending
  {
    var s1 := Extend([], Request(0));
    var s2 := Extend(s1, Enter(0));
    var s3 := Extend(s2, Created);
    var s4 := Extend(s3, Offered);
    var s5 := Extend(s4, Answer(1));
    var s6 := Extend(s5, Applied(1));
    var s7 := Extend(s6, Request(2));
    assert s7 == [Request(0), Enter(0), Created, Offered, Answer(1), Applied(1), Request(2)];
    assert After(s2) == Peer(false, false, {}, Creating(0, 1), {}, {}, 0, 1, 0, 0);
    assert After(s4) == Peer(true, false, {}, Free, {}, {}, 1, 1, 1, 1);
    assert After(s6) == Peer(true, false, {}, Free, {}, {1}, 0, 1, 1, 1);
    assert After(s7) == Peer(true, false, {2}, Free, {}, {1}, 0, 2, 1, 1);
    assert {1} - {1} == {} && {2} - {2} == {};
  }

  lemma {:induction false} Extend(steps: seq<Step>, step: Step) returns (more: seq<Step>)
    requires IsRun(steps) && Enabled(After(steps), step)
    ensures more == steps + [step] && IsRun(more) && After(more) == Apply(After(steps), step)
  {
    more := steps + [step];
    assert more[..|steps|] == steps;
  }
}
