/** `QueueManager`: a photograph claim and a notice claim between the same two
    groups must be handled in submission order, so a newer one waits behind an
    older pending one of the complementary option. */
module Queue {
  import opened Wrappers
  import opened Base
  import opened Options
  import opened Ordering
  import opened Submissions

  /** The option a submission of option `k` may wait on: a notice waits on a
      photograph and a photograph on a notice; nothing else ever waits. */
  function WaitsOn(k: OptionKind): Option<OptionKind>
  {
    match k
    case NoticePhoto => Some(Photograph)
    case Photograph => Some(NoticePhoto)
    case _ => None
  }

  /** `a < b` on nullable timestamps, false when either is missing (SQL NULL). */
  predicate Before(a: Option<Time>, b: Option<Time>)
  {
    a.Some? && b.Some? && a.value < b.value
  }

  /** The reference relation: `c` holds up `s` when `c` is pending, has the
      option `s` waits on, was filed by `s`'s target group against `s`'s group,
      and was submitted strictly earlier. */
  predicate Blocks(c: Submission, s: Submission)
  {
    && WaitsOn(s.option).Some?
    && s.targetGroup.Some?
    && c.status == Pending
    && c.option == WaitsOn(s.option).value
    && c.group == s.targetGroup.value
    && c.targetGroup == Some(s.group)
    && Before(c.submittedAt, s.submittedAt)
  }

  /** The shared query of `find_pending_photo_of_us` and
      `find_pending_notice_from_target`: the earliest pending submission of
      option `k` by `s`'s target group against `s`'s group, submitted before `s`. */
  function EarliestPendingFrom(s: Submission, all: seq<Submission>, k: OptionKind): (r: Option<Submission>)
    ensures s.targetGroup.None? ==> r.None?
    ensures r.Some? ==> r.value in all
  {
    if s.targetGroup.None? then None
    else
      var keep := (c: Submission) =>
        c.status == Pending && c.option == k && c.group == s.targetGroup.value
        && c.targetGroup == Some(s.group) && Before(c.submittedAt, s.submittedAt);
      match FirstMinimal(all, keep, (c: Submission) => c.submittedAt.GetOr(0))
      case None => None
      case Some(i) => Some(all[i])
  }

  /** `find_pending_photo_of_us`: for a notice, the photograph that its target
      group claims to have taken of it. */
  function FindPendingPhotoOfUs(s: Submission, all: seq<Submission>): Option<Submission>
  {
    EarliestPendingFrom(s, all, Photograph)
  }

  /** `find_pending_notice_from_target`: for a photograph, a notice that the
      photographed group filed earlier. */
  function FindPendingNoticeFromTarget(s: Submission, all: seq<Submission>): Option<Submission>
  {
    EarliestPendingFrom(s, all, NoticePhoto)
  }

  /** `find_blocking_submission`: dispatch on the option. */
  function FindBlocking(s: Submission, all: seq<Submission>): (r: Option<Submission>)
    ensures r.None? <==> forall i :: 0 <= i < |all| ==> !Blocks(all[i], s)
    ensures r.Some? ==> r.value in all && Blocks(r.value, s)
    ensures r.Some? ==> forall i :: 0 <= i < |all| && Blocks(all[i], s)
                          ==> r.value.submittedAt.value <= all[i].submittedAt.value
  {
    match s.option
    case NoticePhoto => FindPendingPhotoOfUs(s, all)
    case Photograph => FindPendingNoticeFromTarget(s, all)
    case _ => None
  }

  /** `queue_reason_for(blocker)`, with the blocker's group name looked up by `groupName`. */
  function QueueReasonFor(b: Submission, groupName: Id -> string): (r: string)
    ensures |r| >= 11 && r[..11] == "Wartet auf "
    ensures b.option in {Photograph, NoticePhoto} ==>
              |r| >= |groupName(b.group)| && r[|r| - |groupName(b.group)|..] == groupName(b.group)
    ensures b.option !in {Photograph, NoticePhoto} ==> r[11..] == Name(b.option)
  {
    match b.option
    case Photograph => "Wartet auf Foto-Verifizierung von " + groupName(b.group)
    case NoticePhoto => "Wartet auf 'Foto bemerkt' von " + groupName(b.group)
    case _ => "Wartet auf " + Name(b.option)
  }

  /** `{ queued: false }` or `{ queued: true, behind:, reason: }`. */
  datatype QueueDecision = NotQueued | QueuedBehind(behind: Submission, reason: string)

  /** `QueueManager.check_queue(s)` against all stored submissions. */
  function CheckQueue(s: Submission, all: seq<Submission>, groupName: Id -> string): (r: QueueDecision)
    ensures r.NotQueued? <==> forall i :: 0 <= i < |all| ==> !Blocks(all[i], s)
    ensures r.QueuedBehind? ==> r.behind in all && Blocks(r.behind, s)
    ensures r.QueuedBehind? ==> forall i :: 0 <= i < |all| && Blocks(all[i], s)
                                  ==> r.behind.submittedAt.value <= all[i].submittedAt.value
    ensures r.QueuedBehind? ==> r.reason == QueueReasonFor(r.behind, groupName)
  {
    match FindBlocking(s, all)
    case None => NotQueued
    case Some(b) => QueuedBehind(b, QueueReasonFor(b, groupName))
  }

  /** Only photograph and notice claims are ever queued. */
  lemma OnlyPhotoAndNoticeQueue(s: Submission, all: seq<Submission>, groupName: Id -> string)
    requires s.option != Photograph && s.option != NoticePhoto
    ensures CheckQueue(s, all, groupName) == NotQueued
  {
  }

  /** A claim without a target group is never queued. */
  lemma NoTargetGroupNeverQueued(s: Submission, all: seq<Submission>, groupName: Id -> string)
    requires s.targetGroup.None?
    ensures CheckQueue(s, all, groupName) == NotQueued
  {
  }

  /** Every blocker is pending, has the complementary option, was filed by the
      claim's target group against the claim's group, strictly earlier; and the
      reason names the blocker's group. */
  lemma BlockerTraits(s: Submission, all: seq<Submission>, groupName: Id -> string)
    requires CheckQueue(s, all, groupName).QueuedBehind?
    ensures var b := CheckQueue(s, all, groupName).behind;
            && b.status == Pending
            && (s.option == NoticePhoto ==> b.option == Photograph)
            && (s.option == Photograph ==> b.option == NoticePhoto)
            && Some(b.group) == s.targetGroup
            && b.targetGroup == Some(s.group)
            && b.submittedAt.Some? && s.submittedAt.Some? && b.submittedAt.value < s.submittedAt.value
    ensures var r := CheckQueue(s, all, groupName);
            && (s.option == NoticePhoto ==> r.reason == "Wartet auf Foto-Verifizierung von " + groupName(r.behind.group))
            && (s.option == Photograph ==> r.reason == "Wartet auf 'Foto bemerkt' von " + groupName(r.behind.group))
  {
  }

  /** A claim is queued exactly when some stored submission blocks it. */
  lemma QueuedIffBlockerExists(s: Submission, all: seq<Submission>, groupName: Id -> string)
    ensures CheckQueue(s, all, groupName).QueuedBehind? <==> exists c :: c in all && Blocks(c, s)
  {
    if exists c :: c in all && Blocks(c, s) {
      var c :| c in all && Blocks(c, s);
      var i :| 0 <= i < |all| && all[i] == c;
    }
  }

  /** Nothing blocks itself, and blocking never runs both ways, so waiting
      chains cannot form a cycle of two. */
  lemma BlockingIsAsymmetric(a: Submission, b: Submission)
    ensures !Blocks(a, a)
    ensures Blocks(a, b) ==> !Blocks(b, a)
  {
  }

  // ---------------------------------------------------------------------
  // Release.

  /** `c` waits on the submission with id `resolved` and is still pending. */
  predicate WaitsBehind(c: Submission, resolved: Id)
  {
    c.status == Pending && c.queuedBehind == Some(resolved)
  }

  /** `update!(queued_behind_id: nil, queue_reason: nil)`. */
  function Cleared(c: Submission): Submission
  {
    c.(queuedBehind := None, queueReason := None)
  }

  /** `c` waits on `resolved`, and clearing its queue fields with `update!`
      would raise, because the save validations fail under the requirements
      `reqs` gives for its option. */
  predicate Stuck(c: Submission, resolved: Id, reqs: OptionKind -> Requirements)
  {
    WaitsBehind(c, resolved) && SaveErrors(Cleared(c), reqs(c.option)) != []
  }

  /** The cleared versions of the submissions in `xs` that wait on
      `resolved`, in stored order. */
  function ClearedWaiters(xs: seq<Submission>, resolved: Id): (r: seq<Submission>)
    ensures forall c :: c in r <==> exists i :: 0 <= i < |xs| && WaitsBehind(xs[i], resolved) && c == Cleared(xs[i])
    ensures forall c :: c in r ==> !Queued(c) && c.status == Pending
    decreases |xs|
  {
    if |xs| == 0 then []
    else
      var init := xs[..|xs| - 1];
      assert forall i :: 0 <= i < |init| ==> init[i] == xs[i];
      ClearedWaiters(init, resolved) + (if WaitsBehind(xs[|xs| - 1], resolved) then [Cleared(xs[|xs| - 1])] else [])
  }

  /** The position of the first stored waiter whose release raises, if any. */
  function FirstStuck(all: seq<Submission>, resolved: Id, reqs: OptionKind -> Requirements): (k: Option<nat>)
    ensures k.Some? ==> k.value < |all| && Stuck(all[k.value], resolved, reqs)
    ensures k.Some? ==> forall j :: 0 <= j < k.value ==> !Stuck(all[j], resolved, reqs)
    ensures k.None? <==> forall j :: 0 <= j < |all| ==> !Stuck(all[j], resolved, reqs)
    decreases |all|
  {
    if |all| == 0 then None
    else if Stuck(all[0], resolved, reqs) then Some(0)
    else
      match FirstStuck(all[1..], resolved, reqs)
      case None => None
      case Some(j) => Some(j + 1)
  }

  /** How far the release loop gets: up to the first waiter that raises, or to the end. */
  function ReleaseStop(all: seq<Submission>, resolved: Id, reqs: OptionKind -> Requirements): nat
  {
    match FirstStuck(all, resolved, reqs)
    case Some(k) => k
    case None => |all|
  }

  /** The stored submissions after `process_released` for `resolved`. Every
      `update!` commits on its own, so the waiters before the first failing
      one stay cleared when it raises, and the ones from there on stay queued. */
  function Release(all: seq<Submission>, resolved: Id, reqs: OptionKind -> Requirements): (r: seq<Submission>)
    ensures |r| == |all|
    ensures forall i :: 0 <= i < |all| ==>
              r[i] == if WaitsBehind(all[i], resolved) && i < ReleaseStop(all, resolved, reqs)
                      then Cleared(all[i]) else all[i]
  {
    var stop := ReleaseStop(all, resolved, reqs);
    seq(|all|, i requires 0 <= i < |all| =>
      if WaitsBehind(all[i], resolved) && i < stop then Cleared(all[i]) else all[i])
  }

  /** How `process_released` ends: every waiter released, or the
      `RecordInvalid` of the first waiter that failed re-validation. */
  datatype ReleaseOutcome =
    | ReleasedAll(released: seq<Submission>)
    | ReleaseRaised(errors: seq<ValidationError>)

  /** The loop passes position `i` when no waiter up to it raises, and then
      stores it cleared if it waits and as it was otherwise. */
  lemma ReleaseStep(all: seq<Submission>, resolved: Id, reqs: OptionKind -> Requirements, i: nat)
    requires i < |all|
    requires forall j :: 0 <= j <= i ==> !Stuck(all[j], resolved, reqs)
    ensures Release(all, resolved, reqs)[..i + 1] ==
              Release(all, resolved, reqs)[..i] + [if WaitsBehind(all[i], resolved) then Cleared(all[i]) else all[i]]
  {
    var r := Release(all, resolved, reqs);
    assert i < ReleaseStop(all, resolved, reqs);
    assert r[..i + 1] == r[..i] + [r[i]];
  }

  /** When the waiter at `i` raises and none before it does, the table keeps
      the released prefix and everything from `i` on as stored. */
  lemma RaisedAt(all: seq<Submission>, resolved: Id, reqs: OptionKind -> Requirements, i: nat)
    requires i < |all| && Stuck(all[i], resolved, reqs)
    requires forall j :: 0 <= j < i ==> !Stuck(all[j], resolved, reqs)
    ensures FirstStuck(all, resolved, reqs) == Some(i)
    ensures Release(all, resolved, reqs) == Release(all, resolved, reqs)[..i] + all[i..]
  {
    var k := FirstStuck(all, resolved, reqs).value;
    assert !(k < i) && !(i < k);
  }

  /** `process_released` (without the broadcast): clears the queue fields of
      the pending submissions queued behind `resolved` one `update!` at a
      time, in stored order, and returns them. */
  method ProcessReleased(resolved: Submission, all: seq<Submission>, reqs: OptionKind -> Requirements)
    returns (updated: seq<Submission>, outcome: ReleaseOutcome)
    ensures updated == Release(all, resolved.id, reqs)
    ensures outcome.ReleasedAll? <==> FirstStuck(all, resolved.id, reqs).None?
    ensures outcome.ReleaseRaised? ==>
              var k := FirstStuck(all, resolved.id, reqs).value;
              outcome.errors == SaveErrors(Cleared(all[k]), reqs(all[k].option))
    ensures outcome.ReleasedAll? ==> outcome.released == ClearedWaiters(all, resolved.id)
  {
    ghost var r := Release(all, resolved.id, reqs);
    updated := [];
    var released := [];
    var i := 0;
    while i < |all|
      invariant 0 <= i <= |all|
      invariant forall j :: 0 <= j < i ==> !Stuck(all[j], resolved.id, reqs)
      invariant updated == r[..i]
      invariant released == ClearedWaiters(all[..i], resolved.id)
    {
      var c := all[i];
      if WaitsBehind(c, resolved.id) {
        var errs := SaveErrors(Cleared(c), reqs(c.option));
        if errs != [] {
          RaisedAt(all, resolved.id, reqs, i);
          updated := updated + all[i..];
          outcome := ReleaseRaised(errs);
          return;
        }
        updated := updated + [Cleared(c)];
        released := released + [Cleared(c)];
      } else {
        updated := updated + [c];
      }
      ReleaseStep(all, resolved.id, reqs, i);
      assert all[..i + 1][..i] == all[..i];
      i := i + 1;
    }
    assert r[..|all|] == r;
    assert all[..|all|] == all;
    outcome := ReleasedAll(released);
  }

  /** A second release stops at the same waiter as the first: the waiters
      before it no longer wait, and it is stored unchanged. */
  lemma {:induction false} ReleaseKeepsFirstStuck(all: seq<Submission>, resolved: Id, reqs: OptionKind -> Requirements)
    ensures FirstStuck(Release(all, resolved, reqs), resolved, reqs) == FirstStuck(all, resolved, reqs)
  {
    var r := Release(all, resolved, reqs);
    var stop := ReleaseStop(all, resolved, reqs);
    forall j | 0 <= j < |all| && j < stop
      ensures !Stuck(r[j], resolved, reqs)
    {
      if WaitsBehind(all[j], resolved) {
        assert !WaitsBehind(r[j], resolved);
      }
    }
    match FirstStuck(all, resolved, reqs)
    case None =>
      assert forall j :: 0 <= j < |all| ==> !Stuck(r[j], resolved, reqs);
    case Some(k) =>
      assert r[k] == all[k];
      match FirstStuck(r, resolved, reqs)
      case None =>
      case Some(k') =>
        assert !(k' < k);
        assert !(k < k');
  }

  /** Release is idempotent: a second pass changes nothing. When no waiter
      fails re-validation, nothing pending waits on the resolved submission
      afterwards; otherwise the failing waiter and everything stored after it
      are left as they were. */
  lemma {:induction false} ReleaseExactlyOnce(all: seq<Submission>, resolved: Id, reqs: OptionKind -> Requirements)
    ensures Release(Release(all, resolved, reqs), resolved, reqs) == Release(all, resolved, reqs)
    ensures FirstStuck(all, resolved, reqs).None? ==>
              forall i :: 0 <= i < |all| ==> !WaitsBehind(Release(all, resolved, reqs)[i], resolved)
    ensures FirstStuck(all, resolved, reqs).Some? ==>
              var k := FirstStuck(all, resolved, reqs).value;
              WaitsBehind(Release(all, resolved, reqs)[k], resolved) &&
              forall i :: k <= i < |all| ==> Release(all, resolved, reqs)[i] == all[i]
  {
    var r := Release(all, resolved, reqs);
    ReleaseKeepsFirstStuck(all, resolved, reqs);
    assert ReleaseStop(r, resolved, reqs) == ReleaseStop(all, resolved, reqs);
    var rr := Release(r, resolved, reqs);
    forall i | 0 <= i < |all|
      ensures rr[i] == r[i]
    {
      assert !(WaitsBehind(r[i], resolved) && i < ReleaseStop(r, resolved, reqs));
    }
  }

  /** Release touches nothing but the two queue fields of the released
      submissions, and it never changes a status. */
  lemma ReleaseOnlyClearsQueueFields(all: seq<Submission>, resolved: Id, reqs: OptionKind -> Requirements)
    ensures forall i :: 0 <= i < |all| ==>
              && Release(all, resolved, reqs)[i].status == all[i].status
              && Release(all, resolved, reqs)[i] == all[i].(queuedBehind := Release(all, resolved, reqs)[i].queuedBehind,
                                                           queueReason := Release(all, resolved, reqs)[i].queueReason)
  {
  }
}
