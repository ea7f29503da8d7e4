/**
 `SaferWebProvider`: a cache of snapshots with loading flags and errors, whose two fetches are
 split where they await the service, so that calls and clears interleave freely.
 */
module SaferWeb {
  import opened Text

  datatype Snapshot = Snapshot(body: string)

  // A call waiting for the service.
  datatype Request = Single(id: string) | Batch(asked: seq<string>, valid: seq<string>)
  {
    predicate Covers(id: string) {
      match this
      case Single(i) => i == id
      case Batch(_, valid) => id in valid
    }
  }

  datatype Web = Web(
    cache: map<string, Snapshot>, loading: map<string, bool>, errors: map<string, Option<string>>,
    pending: multiset<Request>)

  const IDLE := Web(map[], map[], map[], multiset{})

  predicate IsLoading(w: Web, id: string) { id in w.loading && w.loading[id] }

  // What the service answers, or the text of what it throws.
  datatype Reply<T> = Answer(value: T) | Thrown(error: string)

  function SetLoading(loading: map<string, bool>, ids: seq<string>, flag: bool): map<string, bool> {
    map id | id in loading.Keys + Members(ids) :: if id in ids then flag else loading[id]
  }

  function SetErrors(errors: map<string, Option<string>>, ids: seq<string>, error: Option<string>)
    : map<string, Option<string>>
  {
    map id | id in errors.Keys + Members(ids) :: if id in ids then error else errors[id]
  }

  function Members(ids: seq<string>): set<string> {
    set i | 0 <= i < |ids| :: ids[i]
  }

  // ----- the steps, from one await to the next -----

  datatype Step =
    | BeginSingle(id: string)
    | EndSingle(id: string, reply: Reply<Option<Snapshot>>)
    | BeginBatch(asked: seq<string>)
    | EndBatch(asked: seq<string>, valid: seq<string>, replies: Reply<map<string, Option<Snapshot>>>)
    | Clear(id: string)
    | ClearAll

  const INVALID := "Exception: Invalid identifier format"
  const NONE_VALID := "Exception: No valid identifiers provided"

  function Fail(w: Web, ids: seq<string>, error: string): Web {
    w.(loading := SetLoading(w.loading, ids, false), errors := SetErrors(w.errors, ids, Some(error)))
  }

  function Start(w: Web, ids: seq<string>, request: Request): Web {
    w.(loading := SetLoading(w.loading, ids, true), errors := SetErrors(w.errors, ids, None),
       pending := w.pending + multiset{request})
  }

  // The snapshots among the results for `ids`.
  function Found(results: map<string, Option<Snapshot>>, ids: set<string>): map<string, Snapshot> {
    map id | id in results && id in ids && results[id].Some? :: results[id].value
  }

  function Unload(loading: map<string, bool>, ids: set<string>): map<string, bool> {
    map id | id in loading.Keys + ids :: if id in ids then false else loading[id]
  }

  function Take(w: Web, isValid: string -> bool, step: Step): Web {
    match step
    case BeginSingle(id) =>
      if id in w.cache then w
      else if !isValid(id) then Fail(w, [id], INVALID)
      else Start(w, [id], Single(id))
    case EndSingle(id, reply) =>
      var w1 := w.(pending := w.pending - multiset{Single(id)});
      if reply.Thrown? then Fail(w1, [id], reply.error)
      else
        w1.(cache := if reply.value.Some? then w.cache[id := reply.value.value] else w.cache,
            loading := w.loading[id := false])
    case BeginBatch(asked) =>
      var valid := Where(asked, isValid);
      if valid == [] then Fail(w, asked, NONE_VALID) else Start(w, valid, Batch(asked, valid))
    case EndBatch(asked, valid, replies) =>
      var w1 := w.(pending := w.pending - multiset{Batch(asked, valid)});
      if replies.Thrown? then Fail(w1, asked, replies.error)
      else
        w1.(cache := w.cache + Found(replies.value, replies.value.Keys),
            loading := Unload(w.loading, replies.value.Keys))
    case Clear(id) => w.(cache := w.cache - {id}, loading := w.loading - {id}, errors := w.errors - {id})
    case ClearAll => w.(cache := map[], loading := map[], errors := map[])
  }

  // A call can only end if it is waiting, and the batch service answers for every id asked of it.
  predicate Allowed(w: Web, isValid: string -> bool, step: Step) {
    match step
    case EndSingle(id, _) => Single(id) in w.pending
    case EndBatch(asked, valid, replies) =>
      && Batch(asked, valid) in w.pending
      && (replies.Answer? ==> forall i :: 0 <= i < |valid| ==> valid[i] in replies.value)
    case _ => true
  }

  function Run(w: Web, isValid: string -> bool, steps: seq<Step>): Web
    decreases |steps|
  {
    if steps == [] then w else Run(Take(w, isValid, steps[0]), isValid, steps[1..])
  }

  predicate AllowedRun(w: Web, isValid: string -> bool, steps: seq<Step>)
    decreases |steps|
  {
    steps != [] ==> Allowed(w, isValid, steps[0]) && AllowedRun(Take(w, isValid, steps[0]), isValid, steps[1..])
  }

  // ----- a loading flag is always owed by some waiting call -----

  ghost predicate Owed(w: Web) {
    && (forall id :: IsLoading(w, id) ==> exists r :: r in w.pending && r.Covers(id))
    && (forall r :: r in w.pending && r.Batch? ==> forall i :: 0 <= i < |r.valid| ==> r.valid[i] in r.asked)
  }

  lemma OwedElsewhere(w: Web, w': Web, done: Request)
    requires Owed(w) && w'.pending == w.pending - multiset{done}
    requires forall id :: IsLoading(w', id) ==> IsLoading(w, id) && !done.Covers(id)
    ensures Owed(w')
  {
    forall id | IsLoading(w', id) ensures exists r :: r in w'.pending && r.Covers(id) {
      var r :| r in w.pending && r.Covers(id);
      assert r in w'.pending;
    }
  }

  lemma OwedByMore(w: Web, w': Web, extra: Request)
    requires Owed(w) && w'.pending == w.pending + multiset{extra}
    requires extra.Batch? ==> forall i :: 0 <= i < |extra.valid| ==> extra.valid[i] in extra.asked
    requires forall id :: IsLoading(w', id) ==> IsLoading(w, id) || extra.Covers(id)
    ensures Owed(w')
  {
    forall id | IsLoading(w', id) ensures exists r :: r in w'.pending && r.Covers(id) {
      if extra.Covers(id) {
        assert extra in w'.pending;
      } else {
        var r :| r in w.pending && r.Covers(id);
        assert r in w'.pending;
      }
    }
  }

  lemma OwedByFewerFlags(w: Web, w': Web)
    requires Owed(w) && w'.pending == w.pending && forall id :: IsLoading(w', id) ==> IsLoading(w, id)
    ensures Owed(w')
  {
  }

  lemma LoadingAfterSet(w: Web, w': Web, ids: seq<string>, flag: bool)
    requires w'.loading == SetLoading(w.loading, ids, flag)
    ensures forall id :: IsLoading(w', id) <==> if id in ids then flag else IsLoading(w, id)
  {
    forall id ensures IsLoading(w', id) <==> if id in ids then flag else IsLoading(w, id) {
      if id in ids {
        var i :| 0 <= i < |ids| && ids[i] == id;
        assert id in Members(ids);
      }
    }
  }

  lemma FailKeepsOwed(w: Web, ids: seq<string>, error: string)
    requires Owed(w)
    ensures Owed(Fail(w, ids, error))
  {
    hide Owed, SetLoading, SetErrors, IsLoading;
    LoadingAfterSet(w, Fail(w, ids, error), ids, false);
    OwedByFewerFlags(w, Fail(w, ids, error));
  }

  lemma StartKeepsOwed(w: Web, ids: seq<string>, request: Request)
    requires Owed(w) && forall i :: 0 <= i < |ids| ==> request.Covers(ids[i])
    requires request.Batch? ==> forall i :: 0 <= i < |request.valid| ==> request.valid[i] in request.asked
    ensures Owed(Start(w, ids, request))
  {
    hide Owed, SetLoading, SetErrors, IsLoading, Request.Covers;
    LoadingAfterSet(w, Start(w, ids, request), ids, true);
    OwedByMore(w, Start(w, ids, request), request);
  }

  lemma ThrowKeepsOwed(w: Web, ids: seq<string>, request: Request, error: string)
    requires Owed(w) && forall id :: request.Covers(id) ==> id in ids
    ensures Owed(Fail(w.(pending := w.pending - multiset{request}), ids, error))
  {
    hide Owed, SetLoading, SetErrors, IsLoading, Request.Covers;
    var w' := Fail(w.(pending := w.pending - multiset{request}), ids, error);
    LoadingAfterSet(w, w', ids, false);
    OwedElsewhere(w, w', request);
  }

  lemma StepKeepsOwed(w: Web, isValid: string -> bool, step: Step)
    requires Owed(w) && Allowed(w, isValid, step)
    ensures Owed(Take(w, isValid, step))
  {
    hide Owed, Fail, Start;
    var w' := Take(w, isValid, step);
    match step
    case BeginSingle(id) =>
      if id !in w.cache {
        if isValid(id) { StartKeepsOwed(w, [id], Single(id)); } else { FailKeepsOwed(w, [id], INVALID); }
      }
    case EndSingle(id, reply) =>
      if reply.Thrown? { ThrowKeepsOwed(w, [id], Single(id), reply.error); } else { OwedElsewhere(w, w', Single(id)); }
    case BeginBatch(asked) =>
      var valid := Where(asked, isValid);
      if valid == [] { FailKeepsOwed(w, asked, NONE_VALID); } else { StartKeepsOwed(w, valid, Batch(asked, valid)); }
    case EndBatch(asked, valid, replies) =>
      BatchAsksForValid(w, asked, valid);
      if replies.Thrown? {
        ThrowKeepsOwed(w, asked, Batch(asked, valid), replies.error);
      } else {
        OwedElsewhere(w, w', Batch(asked, valid));
      }
    case Clear(id) => OwedByFewerFlags(w, w');
    case ClearAll => OwedByFewerFlags(w, w');
  }

  lemma BatchAsksForValid(w: Web, asked: seq<string>, valid: seq<string>)
    requires Owed(w) && Batch(asked, valid) in w.pending
    ensures forall i :: 0 <= i < |valid| ==> valid[i] in asked
  {
    var r := Batch(asked, valid);
    assert r.valid == valid && r.asked == asked;
  }

  lemma {:induction false} RunKeepsOwed(w: Web, isValid: string -> bool, steps: seq<Step>)
    requires Owed(w) && AllowedRun(w, isValid, steps)
    ensures Owed(Run(w, isValid, steps))
    decreases |steps|
  {
    hide Owed, Take, Allowed;
    if steps != [] {
      StepKeepsOwed(w, isValid, steps[0]);
      RunKeepsOwed(Take(w, isValid, steps[0]), isValid, steps[1..]);
    }
  }

  /**
   Under every interleaving, an id shown as loading is covered by a call still waiting; so once
   no call waits, nothing is loading.
   */
  lemma LoadingIsOwed(isValid: string -> bool, steps: seq<Step>, id: string)
    requires AllowedRun(IDLE, isValid, steps)
    ensures var w := Run(IDLE, isValid, steps);
            IsLoading(w, id) ==> w.pending != multiset{} && exists r :: r in w.pending && r.Covers(id)
  {
    RunKeepsOwed(IDLE, isValid, steps);
  }

  /**
   The service has to answer for every id: a batch that ends without an answer for one of its
   ids leaves that id loading with no call waiting.
   */
  lemma MissingReplyLoadsForever(isValid: string -> bool, id: string)
    requires isValid(id)
    ensures var w := Run(IDLE, isValid, [BeginBatch([id]), EndBatch([id], [id], Answer(map[]))]);
            w.pending == multiset{} && IsLoading(w, id)
  {
    var w1 := Take(IDLE, isValid, BeginBatch([id]));
    assert Where([id], isValid) == [id];
    var last := EndBatch([id], [id], Answer(map[]));
    assert [BeginBatch([id]), last][1..] == [last];
    assert Run(w1, isValid, [last]) == Take(w1, isValid, last);
    assert w1.pending - multiset{Batch([id], [id])} == multiset{};
  }

  // ----- the cache -----

  predicate Clears(step: Step, id: string) {
    step == ClearAll || step == Clear(id)
  }

  /** A cached id stays cached until it is cleared, and as long as it is, fetching it asks the service nothing. */
  lemma {:induction false} CachedUntilCleared(w: Web, isValid: string -> bool, steps: seq<Step>, id: string)
    requires id in w.cache && forall i :: 0 <= i < |steps| ==> !Clears(steps[i], id)
    ensures var w' := Run(w, isValid, steps);
            id in w'.cache && Take(w', isValid, BeginSingle(id)) == w'
    decreases |steps|
  {
    if steps != [] {
      assert id in Take(w, isValid, steps[0]).cache by {
        hide SetLoading, SetErrors;
        assert !Clears(steps[0], id);
      }
      hide Take;
      CachedUntilCleared(Take(w, isValid, steps[0]), isValid, steps[1..], id);
    }
  }

  // ----- what one id shows -----

  // What the getters answer for one id: its snapshot, whether it is loading, and its error.
  datatype Face = Face(snapshot: Option<Snapshot>, loading: bool, error: Option<string>)

  const BLANK := Face(None, false, None)

  function FaceOf(w: Web, id: string): Face {
    Face(if id in w.cache then Some(w.cache[id]) else None,
         id in w.loading && w.loading[id],
         if id in w.errors then w.errors[id] else None)
  }

  /** What a step makes of the face of one id, told without looking at any other. */
  function Turn(f: Face, id: string, isValid: string -> bool, step: Step): Face {
    match step
    case BeginSingle(i) =>
      if i != id || f.snapshot.Some? then f
      else if isValid(id) then Face(None, true, None)
      else Face(None, false, Some("Exception: Invalid identifier format"))
    case EndSingle(i, Thrown(error)) => if i == id then Face(f.snapshot, false, Some(error)) else f
    case EndSingle(i, Answer(found)) => if i == id then Face(found.Or(f.snapshot), false, f.error) else f
    case BeginBatch(asked) =>
      if id !in asked then f
      else if isValid(id) then Face(f.snapshot, true, None)
      else if exists i :: i in asked && isValid(i) then f
      else Face(f.snapshot, false, Some("Exception: No valid identifiers provided"))
    case EndBatch(asked, _, Thrown(error)) => if id in asked then Face(f.snapshot, false, Some(error)) else f
    case EndBatch(_, _, Answer(results)) =>
      if id in results then Face(results[id].Or(f.snapshot), false, f.error) else f
    case Clear(i) => if i == id then BLANK else f
    case ClearAll => BLANK
  }

  ghost function TurnAll(f: Face, id: string, isValid: string -> bool, steps: seq<Step>): Face
    decreases |steps|
  {
    if steps == [] then f else TurnAll(Turn(f, id, isValid, steps[0]), id, isValid, steps[1..])
  }

  lemma FaceAfterSet(w: Web, w': Web, ids: seq<string>, flag: bool, error: Option<string>, id: string)
    requires w'.cache == w.cache
    requires w'.loading == SetLoading(w.loading, ids, flag) && w'.errors == SetErrors(w.errors, ids, error)
    ensures FaceOf(w', id) == if id in ids then Face(FaceOf(w, id).snapshot, flag, error) else FaceOf(w, id)
  {
    if id in ids {
      var i :| 0 <= i < |ids| && ids[i] == id;
      assert id in Members(ids);
    }
  }

  lemma FailTurns(w: Web, ids: seq<string>, error: string, id: string)
    ensures FaceOf(Fail(w, ids, error), id) ==
            if id in ids then Face(FaceOf(w, id).snapshot, false, Some(error)) else FaceOf(w, id)
  {
    FaceAfterSet(w, Fail(w, ids, error), ids, false, Some(error), id);
  }

  lemma StartTurns(w: Web, ids: seq<string>, request: Request, id: string)
    ensures FaceOf(Start(w, ids, request), id) ==
            if id in ids then Face(FaceOf(w, id).snapshot, true, None) else FaceOf(w, id)
  {
    FaceAfterSet(w, Start(w, ids, request), ids, true, None, id);
  }

  lemma EndSingleTurns(w: Web, isValid: string -> bool, i: string, found: Option<Snapshot>, id: string)
    ensures FaceOf(Take(w, isValid, EndSingle(i, Answer(found))), id) ==
            if i == id then Face(found.Or(FaceOf(w, id).snapshot), false, FaceOf(w, id).error) else FaceOf(w, id)
  {
  }

  lemma EndBatchTurns(w: Web, isValid: string -> bool, asked: seq<string>, valid: seq<string>,
                      results: map<string, Option<Snapshot>>, id: string)
    ensures FaceOf(Take(w, isValid, EndBatch(asked, valid, Answer(results))), id) ==
            if id in results then Face(results[id].Or(FaceOf(w, id).snapshot), false, FaceOf(w, id).error)
            else FaceOf(w, id)
  {
  }

  lemma BeginTurns(w: Web, isValid: string -> bool, step: Step, id: string)
    requires step.BeginSingle? || step.BeginBatch?
    ensures FaceOf(Take(w, isValid, step), id) == Turn(FaceOf(w, id), id, isValid, step)
  {
    hide Fail, Start;
    match step
    case BeginSingle(i) =>
      FailTurns(w, [i], INVALID, id);
      StartTurns(w, [i], Single(i), id);
    case BeginBatch(asked) =>
      var valid := Where(asked, isValid);
      FailTurns(w, asked, NONE_VALID, id);
      StartTurns(w, valid, Batch(asked, valid), id);
      ValidAsked(asked, isValid, id);
  }

  lemma ThrownTurns(w: Web, isValid: string -> bool, step: Step, id: string)
    requires (step.EndSingle? && step.reply.Thrown?) || (step.EndBatch? && step.replies.Thrown?)
    ensures FaceOf(Take(w, isValid, step), id) == Turn(FaceOf(w, id), id, isValid, step)
  {
    hide Fail;
    match step
    case EndSingle(i, reply) => FailTurns(w.(pending := w.pending - multiset{Single(i)}), [i], reply.error, id);
    case EndBatch(asked, valid, replies) =>
      FailTurns(w.(pending := w.pending - multiset{Batch(asked, valid)}), asked, replies.error, id);
  }

  lemma ClearTurns(w: Web, isValid: string -> bool, step: Step, id: string)
    requires step.Clear? || step.ClearAll?
    ensures FaceOf(Take(w, isValid, step), id) == Turn(FaceOf(w, id), id, isValid, step)
  {
  }

  lemma StepTurns(w: Web, isValid: string -> bool, step: Step, id: string)
    ensures FaceOf(Take(w, isValid, step), id) == Turn(FaceOf(w, id), id, isValid, step)
  {
    hide Take, FaceOf;
    match step
    case EndSingle(i, Answer(found)) => EndSingleTurns(w, isValid, i, found, id);
    case EndBatch(asked, valid, Answer(results)) => EndBatchTurns(w, isValid, asked, valid, results, id);
    case EndSingle(_, Thrown(_)) => ThrownTurns(w, isValid, step, id);
    case EndBatch(_, _, Thrown(_)) => ThrownTurns(w, isValid, step, id);
    case Clear(_) => ClearTurns(w, isValid, step, id);
    case ClearAll => ClearTurns(w, isValid, step, id);
    case _ => BeginTurns(w, isValid, step, id);
  }

  lemma ValidAsked(asked: seq<string>, isValid: string -> bool, id: string)
    ensures id in Where(asked, isValid) <==> id in asked && isValid(id)
    ensures Where(asked, isValid) != [] <==> exists i :: i in asked && isValid(i)
  {
    var valid := Where(asked, isValid);
    if valid != [] { assert valid[0] in valid; }
    if i :| i in asked && isValid(i) { assert i in valid; }
  }

  /**
   Under every interleaving of calls, answers and clears, what the screens are shown for an id is
   decided by the steps that concern it, in their order: no step for other ids disturbs it.
   */
  lemma {:induction false} FaceExact(w: Web, isValid: string -> bool, steps: seq<Step>, id: string)
    ensures FaceOf(Run(w, isValid, steps), id) == TurnAll(FaceOf(w, id), id, isValid, steps)
    decreases |steps|
  {
    hide Take, Turn, FaceOf;
    if steps != [] {
      StepTurns(w, isValid, steps[0], id);
      FaceExact(Take(w, isValid, steps[0]), isValid, steps[1..], id);
    }
  }

  // The service answered `snapshot` for `id` at this step.
  predicate Answers(step: Step, id: string, snapshot: Snapshot) {
    || step == EndSingle(id, Answer(Some(snapshot)))
    || (&& step.EndBatch? && step.replies.Answer? && id in step.replies.value
        && step.replies.value[id] == Some(snapshot))
  }

  predicate AnswersSome(step: Step, id: string) {
    || (step.EndSingle? && step.id == id && step.reply.Answer? && step.reply.value.Some?)
    || (step.EndBatch? && step.replies.Answer? && id in step.replies.value && step.replies.value[id].Some?)
  }

  lemma StepAnswers(w: Web, isValid: string -> bool, step: Step, id: string)
    ensures var w' := Take(w, isValid, step);
      if Clears(step, id) then id !in w'.cache
      else if AnswersSome(step, id) then id in w'.cache && Answers(step, id, w'.cache[id])
      else (id in w'.cache <==> id in w.cache) && (id in w.cache ==> w'.cache[id] == w.cache[id])
  {
    hide SetLoading, SetErrors, Unload;
  }

  lemma RunSnoc(w: Web, isValid: string -> bool, steps: seq<Step>, last: Step)
    ensures Run(w, isValid, steps + [last]) == Take(Run(w, isValid, steps), isValid, last)
    decreases |steps|
  {
    hide Take;
    if steps == [] {
      assert [last][1..] == [] && [] + [last] == [last];
    } else {
      RunSnoc(Take(w, isValid, steps[0]), isValid, steps[1..], last);
      assert (steps + [last])[1..] == steps[1..] + [last];
    }
  }

  // The last answer for `id` was `snapshot`, and it was not cleared since.
  ghost predicate LastAnswered(steps: seq<Step>, id: string, snapshot: Snapshot) {
    exists k :: 0 <= k < |steps| && Answers(steps[k], id, snapshot)
      && forall j :: k < j < |steps| ==> !AnswersSome(steps[j], id) && !Clears(steps[j], id)
  }

  lemma LastAnsweredSnoc(steps: seq<Step>, last: Step, id: string, snapshot: Snapshot)
    ensures LastAnswered(steps + [last], id, snapshot) <==>
            Answers(last, id, snapshot)
            || (!AnswersSome(last, id) && !Clears(last, id) && LastAnswered(steps, id, snapshot))
  {
    hide Answers, AnswersSome, Clears;
    var all, n := steps + [last], |steps|;
    assert all[n] == last && forall k :: 0 <= k < n ==> all[k] == steps[k];
    if LastAnswered(all, id, snapshot) {
      var k :| 0 <= k < |all| && Answers(all[k], id, snapshot)
               && forall j :: k < j < |all| ==> !AnswersSome(all[j], id) && !Clears(all[j], id);
      if k < n { assert Answers(steps[k], id, snapshot); }
    }
    if LastAnswered(steps, id, snapshot) && !AnswersSome(last, id) && !Clears(last, id) {
      var k :| 0 <= k < n && Answers(steps[k], id, snapshot)
               && forall j :: k < j < n ==> !AnswersSome(steps[j], id) && !Clears(steps[j], id);
      assert Answers(all[k], id, snapshot);
    }
    if Answers(last, id, snapshot) { assert Answers(all[n], id, snapshot); }
  }

  lemma AnswersOne(step: Step, id: string, snapshot: Snapshot, other: Snapshot)
    requires Answers(step, id, snapshot)
    ensures AnswersSome(step, id) && !Clears(step, id) && (Answers(step, id, other) ==> other == snapshot)
  {
  }

  /** A snapshot is cached for an id exactly when the service answered it last for that id, with no clear since. */
  lemma {:induction false} CachedExact(isValid: string -> bool, steps: seq<Step>, id: string, snapshot: Snapshot)
    ensures var w := Run(IDLE, isValid, steps);
            id in w.cache && w.cache[id] == snapshot <==> LastAnswered(steps, id, snapshot)
  {
    if steps != [] {
      var n := |steps| - 1;
      var front, last := steps[..n], steps[n];
      assert steps == front + [last];
      hide Take, Run, Answers, AnswersSome, Clears, LastAnswered;
      CachedExact(isValid, front, id, snapshot);
      LastAnsweredSnoc(front, last, id, snapshot);
      RunSnoc(IDLE, isValid, front, last);
      StepAnswers(Run(IDLE, isValid, front), isValid, last, id);
      var w := Run(IDLE, isValid, steps);
      if Answers(last, id, snapshot) { AnswersOne(last, id, snapshot, snapshot); }
      if id in w.cache && Answers(last, id, w.cache[id]) { AnswersOne(last, id, w.cache[id], snapshot); }
    }
  }

  lemma MembersSnoc(ids: seq<string>, id: string)
    ensures Members(ids + [id]) == Members(ids) + {id}
  {
    var more := ids + [id];
    assert more[|ids|] == id;
    forall x | x in Members(ids) ensures x in Members(more) {
      var i :| 0 <= i < |ids| && ids[i] == x;
      assert more[i] == x;
    }
  }

  lemma EndBatchIs(w: Web, isValid: string -> bool, asked: seq<string>, valid: seq<string>,
                   replies: Reply<map<string, Option<Snapshot>>>)
    ensures var w1 := w.(pending := w.pending - multiset{Batch(asked, valid)});
      Take(w, isValid, EndBatch(asked, valid, replies)) ==
        if replies.Thrown? then Fail(w1, asked, replies.error)
        else w1.(cache := w.cache + Found(replies.value, replies.value.Keys),
                 loading := Unload(w.loading, replies.value.Keys))
  {
  }

  // ----- the object -----

  class SaferWebProvider {
    const isValid: string -> bool
    var snapshotCache: map<string, Snapshot>
    var loadingStates: map<string, bool>
    var errorStates: map<string, Option<string>>
    ghost var pending: multiset<Request>

    ghost function View(): Web
      reads this
    {
      Web(snapshotCache, loadingStates, errorStates, pending)
    }

    constructor (isValid: string -> bool)
      ensures View() == IDLE && this.isValid == isValid
    {
      this.isValid := isValid;
      snapshotCache, loadingStates, errorStates, pending := map[], map[], map[], multiset{};
    }

    /** `fetchSnapshot` up to its await: `Some` is a result returned at once. */
    method BeginFetchSnapshot(identifier: string) returns (done: bool, snapshot: Option<Snapshot>)
      modifies this
      ensures View() == Take(old(View()), isValid, BeginSingle(identifier))
      ensures done <==> pending == old(pending)
      ensures identifier in old(snapshotCache) ==> done
      ensures snapshot == if identifier in old(snapshotCache) then Some(old(snapshotCache)[identifier]) else None
    {
      if identifier in snapshotCache {
        return true, Some(snapshotCache[identifier]);
      }
      if !isValid(identifier) {
        FailAll([identifier], INVALID);
        return true, None;
      }
      loadingStates := loadingStates[identifier := true];
      errorStates := errorStates[identifier := None];
      SetOne(old(loadingStates), old(errorStates), identifier, true, None);
      pending := pending + multiset{Single(identifier)};
      assert |pending| == |old(pending)| + 1;
      return false, None;
    }

    /** The rest of `fetchSnapshot`. */
    method EndFetchSnapshot(identifier: string, reply: Reply<Option<Snapshot>>) returns (snapshot: Option<Snapshot>)
      requires Single(identifier) in pending
      modifies this
      ensures View() == Take(old(View()), isValid, EndSingle(identifier, reply))
      ensures snapshot == if reply.Answer? then reply.value else None
    {
      pending := pending - multiset{Single(identifier)};
      match reply {
        case Thrown(error) =>
          FailAll([identifier], error);
          snapshot := None;
        case Answer(found) =>
          if found.Some? {
            snapshotCache := snapshotCache[identifier := found.value];
          }
          loadingStates := loadingStates[identifier := false];
          snapshot := found;
      }
    }

    /** `fetchMultipleSnapshots` up to its await. */
    method BeginFetchMultiple(identifiers: seq<string>)
      modifies this
      ensures View() == Take(old(View()), isValid, BeginBatch(identifiers))
    {
      var valid := Where(identifiers, isValid);
      if valid == [] {
        FailAll(identifiers, NONE_VALID);
      } else {
        for i := 0 to |valid|
          invariant loadingStates == SetLoading(old(loadingStates), valid[..i], true)
          invariant errorStates == SetErrors(old(errorStates), valid[..i], None)
          invariant snapshotCache == old(snapshotCache) && pending == old(pending)
        {
          SetSnoc(old(loadingStates), old(errorStates), valid[..i], valid[i], true, None);
          assert valid[..i + 1] == valid[..i] + [valid[i]];
          loadingStates := loadingStates[valid[i] := true];
          errorStates := errorStates[valid[i] := None];
        }
        assert valid[..|valid|] == valid;
        pending := pending + multiset{Batch(identifiers, valid)};
      }
    }

    /** The rest of `fetchMultipleSnapshots`. */
    method EndFetchMultiple(identifiers: seq<string>, valid: seq<string>, replies: Reply<map<string, Option<Snapshot>>>)
      returns (results: map<string, Option<Snapshot>>)
      requires Batch(identifiers, valid) in pending
      modifies this
      ensures View() == Take(old(View()), isValid, EndBatch(identifiers, valid, replies))
      ensures results == if replies.Answer? then replies.value else map[]
    {
      hide Unload, Found, SetLoading, SetErrors, Take;
      EndBatchIs(View(), isValid, identifiers, valid, replies);
      pending := pending - multiset{Batch(identifiers, valid)};
      match replies {
        case Thrown(error) =>
          FailAll(identifiers, error);
          results := map[];
        case Answer(found) =>
          Store(found);
          results := found;
      }
    }

    // `results.forEach`
    method Store(results: map<string, Option<Snapshot>>)
      modifies this`loadingStates, this`snapshotCache
      ensures snapshotCache == old(snapshotCache) + Found(results, results.Keys)
      ensures loadingStates == Unload(old(loadingStates), results.Keys)
    {
      hide Found, Unload;
      var rest := results.Keys;
      StoreNone(old(snapshotCache), old(loadingStates), results);
      while rest != {}
        invariant rest <= results.Keys
        invariant loadingStates == Unload(old(loadingStates), results.Keys - rest)
        invariant snapshotCache == old(snapshotCache) + Found(results, results.Keys - rest)
        decreases |rest|
      {
        var id :| id in rest;
        StoreOne(old(snapshotCache), old(loadingStates), results, results.Keys - rest, id);
        assert results.Keys - (rest - {id}) == results.Keys - rest + {id};
        loadingStates := loadingStates[id := false];
        if results[id].Some? {
          snapshotCache := snapshotCache[id := results[id].value];
        }
        rest := rest - {id};
      }
      assert results.Keys - {} == results.Keys;
    }

    static lemma StoreNone(cache: map<string, Snapshot>, loading: map<string, bool>,
                           results: map<string, Option<Snapshot>>)
      ensures loading == Unload(loading, results.Keys - results.Keys)
      ensures cache == cache + Found(results, results.Keys - results.Keys)
    {
    }

    static lemma StoreOne(cache: map<string, Snapshot>, loading: map<string, bool>,
                          results: map<string, Option<Snapshot>>, ids: set<string>, id: string)
      requires id in results
      ensures Unload(loading, ids + {id}) == Unload(loading, ids)[id := false]
      ensures cache + Found(results, ids + {id}) ==
              if results[id].Some? then (cache + Found(results, ids))[id := results[id].value]
              else cache + Found(results, ids)
    {
    }

    // The `catch` branches: every id stops loading and gets the error.
    method FailAll(ids: seq<string>, error: string)
      modifies this`loadingStates, this`errorStates
      ensures loadingStates == SetLoading(old(loadingStates), ids, false)
      ensures errorStates == SetErrors(old(errorStates), ids, Some(error))
    {
      for i := 0 to |ids|
        invariant loadingStates == SetLoading(old(loadingStates), ids[..i], false)
        invariant errorStates == SetErrors(old(errorStates), ids[..i], Some(error))
      {
        SetSnoc(old(loadingStates), old(errorStates), ids[..i], ids[i], false, Some(error));
        assert ids[..i + 1] == ids[..i] + [ids[i]];
        loadingStates := loadingStates[ids[i] := false];
        errorStates := errorStates[ids[i] := Some(error)];
      }
      assert ids[..|ids|] == ids;
    }

    static lemma SetSnoc(loading: map<string, bool>, errors: map<string, Option<string>>, ids: seq<string>, id: string,
                         flag: bool, error: Option<string>)
      ensures SetLoading(loading, ids + [id], flag) == SetLoading(loading, ids, flag)[id := flag]
      ensures SetErrors(errors, ids + [id], error) == SetErrors(errors, ids, error)[id := error]
    {
      MembersSnoc(ids, id);
      hide Members;
      assert forall x :: x in ids + [id] <==> x in ids || x == id;
    }

    static lemma SetOne(loading: map<string, bool>, errors: map<string, Option<string>>, id: string,
                        flag: bool, error: Option<string>)
      ensures SetLoading(loading, [id], flag) == loading[id := flag]
      ensures SetErrors(errors, [id], error) == errors[id := error]
    {
      SetSnoc(loading, errors, [], id, flag, error);
      assert SetLoading(loading, [], flag) == loading && SetErrors(errors, [], error) == errors;
      assert [] + [id] == [id];
    }

    method ClearCache(identifier: string)
      modifies this
      ensures View() == Take(old(View()), isValid, Clear(identifier))
    {
      snapshotCache := snapshotCache - {identifier};
      loadingStates := loadingStates - {identifier};
      errorStates := errorStates - {identifier};
    }

    method ClearAllCache()
      modifies this
      ensures View() == Take(old(View()), isValid, ClearAll)
    {
      snapshotCache, loadingStates, errorStates := map[], map[], map[];
    }
  }

  // ----- the batch service -----

  /** `SaferWebApiService.fetchMultipleSnapshots` answers for every id asked, with null for those that threw. */
  method FetchMultipleSnapshots(fetch: string -> Reply<Option<Snapshot>>, identifiers: seq<string>)
    returns (results: map<string, Option<Snapshot>>)
    ensures results.Keys == Members(identifiers)
    ensures forall id :: id in results ==> results[id] == if fetch(id).Answer? then fetch(id).value else None
  {
    results := map[];
    for i := 0 to |identifiers|
      invariant results.Keys == Members(identifiers[..i])
      invariant forall id :: id in results ==> results[id] == if fetch(id).Answer? then fetch(id).value else None
    {
      var id := identifiers[i];
      MembersSnoc(identifiers[..i], id);
      assert identifiers[..i + 1] == identifiers[..i] + [id];
      var reply := fetch(id);
      results := results[id := if reply.Answer? then reply.value else None];
    }
    assert identifiers[..|identifiers|] == identifiers;
  }
}
