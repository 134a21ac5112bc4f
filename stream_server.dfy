/** The camera stream engine of app_server.h: the attachment counter that
    starts and stops the capture task, the single frame slot the capture task
    fills, and the per-client session that copies the slot out and sends it as
    one multipart chunk after another.

    Each section the firmware guards with a mutex is one atomic method here.
    Camera frames are tracked with two ghost sequences: the frames acquired
    from the driver and the frames given back to it. */
module StreamServer {
  import opened EspTypes
  import opened Multipart

  /** `camera_fb_t`: one encoded JPEG. Its `len` is a `size_t`, 32 bits on the ESP32. */
  datatype Frame = Frame(buf: seq<byte>) {
    predicate Sized() {
      |buf| < 0x1_0000_0000
    }
  }

  /** The frames the slot holds, as a sequence of zero or one. */
  function Held(slot: Option<Frame>): seq<Frame> {
    match slot
    case Some(f) => [f]
    case None => []
  }

  /** Exactly-once accounting: the frames returned to the driver, followed by the
      one still in the slot, are exactly the frames acquired, in acquisition order. */
  ghost predicate Accounted(acquired: seq<Frame>, returned: seq<Frame>, slot: Option<Frame>) {
    returned + Held(slot) == acquired
  }

  /** The accounting in counter form: every frame acquired is returned once, in
      order, except the one in the slot, which is the last one acquired and has
      not been returned yet. */
  lemma AccountedCounts(acquired: seq<Frame>, returned: seq<Frame>, slot: Option<Frame>)
    requires Accounted(acquired, returned, slot)
    ensures |acquired| == |returned| + (if slot.Some? then 1 else 0)
    ensures returned == acquired[..|returned|]
    ensures slot.Some? ==> slot.value == acquired[|acquired| - 1]
  {
  }

  /** The frames an iteration sequence of `esp_camera_fb_get` calls delivered. */
  function Successes(shots: seq<Option<Frame>>): seq<Frame> {
    if shots == [] then [] else Successes(shots[..|shots| - 1]) + Held(shots[|shots| - 1])
  }

  // ---------------------------------------------------------------------------
  // Attachment counter and capture-task lifecycle (client_count_semaphore)
  // ---------------------------------------------------------------------------

  /** Tasks are numbered in creation order; a handle names one of them. */
  type TaskId = nat

  /** The globals `client_count`, `capture_task_handle` and `capture_task_running`,
      with the number of capture tasks created and retired so far. */
  datatype Lifecycle = Lifecycle(clients: int, handle: Option<TaskId>, running: bool, created: nat, retired: nat)

  const Idle: Lifecycle := Lifecycle(0, None, false, 0, 0)

  /** Handler entry: count the client; with no capture task, raise the flag and create one. */
  function AttachStep(s: Lifecycle): Lifecycle {
    var n := s.clients + 1;
    if n > 0 && s.handle.None? then Lifecycle(n, Some(s.created), true, s.created + 1, s.retired)
    else s.(clients := n)
  }

  /** Handler exit: uncount the client; the last one out lowers the flag and drops the handle. */
  function DetachStep(s: Lifecycle): Lifecycle {
    var n := s.clients - 1;
    if n == 0 && s.handle.Some? then Lifecycle(n, None, false, s.created, s.retired + 1)
    else s.(clients := n)
  }

  /** The counter is never negative, a capture task exists and runs exactly while
      some client is attached, and every task but the current one has been retired. */
  ghost predicate Inv(s: Lifecycle) {
    && s.clients >= 0
    && (s.handle.Some? <==> s.clients > 0)
    && (s.running <==> s.handle.Some?)
    && s.created == s.retired + (if s.handle.Some? then 1 else 0)
    && (s.handle.Some? ==> s.handle.value == s.created - 1)
  }

  /** Attach counts one more client and creates a task only on the 0 -> 1 transition. */
  lemma AttachKeepsInv(s: Lifecycle)
    requires Inv(s)
    ensures Inv(AttachStep(s))
    ensures AttachStep(s).clients == s.clients + 1
    ensures AttachStep(s).created == s.created + (if s.clients == 0 then 1 else 0)
    ensures AttachStep(s).retired == s.retired
    ensures s.handle.Some? ==> AttachStep(s).handle == s.handle
  {
  }

  /** Detach counts one client less and retires the task only on the 1 -> 0 transition. */
  lemma DetachKeepsInv(s: Lifecycle)
    requires Inv(s) && s.clients > 0
    ensures Inv(DetachStep(s))
    ensures DetachStep(s).clients == s.clients - 1
    ensures DetachStep(s).retired == s.retired + (if s.clients == 1 then 1 else 0)
    ensures DetachStep(s).created == s.created
    ensures s.clients > 1 ==> DetachStep(s).handle == s.handle && DetachStep(s).running == s.running
  {
  }

  /** One whole session with nobody else arriving or leaving puts counter, handle
      and flag back where they were. */
  lemma SessionRestores(s: Lifecycle)
    requires Inv(s)
    ensures DetachStep(AttachStep(s)).(created := s.created, retired := s.retired) == s
  {
  }

  /** A session's attach or detach, as seen by the attachment counter. */
  datatype Event = Join(session: nat) | Leave(session: nat)

  function Step(s: Lifecycle, e: Event): Lifecycle {
    match e
    case Join(_) => AttachStep(s)
    case Leave(_) => DetachStep(s)
  }

  /** The state after a sequence of events, starting from boot. */
  function Replay(t: seq<Event>): Lifecycle {
    if t == [] then Idle else Step(Replay(t[..|t| - 1]), t[|t| - 1])
  }

  /** The sessions attached and not yet detached after t. */
  function OpenSessions(t: seq<Event>): set<nat> {
    if t == [] then {}
    else
      var open := OpenSessions(t[..|t| - 1]);
      match t[|t| - 1]
      case Join(id) => open + {id}
      case Leave(id) => open - {id}
  }

  /** Every session attaches once on entry and detaches once on exit, in any interleaving. */
  ghost predicate Schedule(t: seq<Event>) {
    t == [] ||
    (Schedule(t[..|t| - 1]) &&
     match t[|t| - 1]
     case Join(id) => id !in OpenSessions(t[..|t| - 1])
     case Leave(id) => id in OpenSessions(t[..|t| - 1]))
  }

  /** Under every interleaving of sessions the counter equals the number of open
      sessions, the capture task runs exactly while it is positive, and there is
      never more than one capture task. */
  lemma {:induction false} ScheduleKeepsInv(t: seq<Event>)
    requires Schedule(t)
    ensures Inv(Replay(t))
    ensures Replay(t).clients == |OpenSessions(t)|
  {
    if t != [] {
      var p := t[..|t| - 1];
      ScheduleKeepsInv(p);
      match t[|t| - 1]
      case Join(id) =>
        AttachKeepsInv(Replay(p));
      case Leave(id) =>
        DetachKeepsInv(Replay(p));
    }
  }

  /** Two viewers: A joins, B joins, A leaves, B leaves. One task is created and
      it is retired only when the second viewer has gone. */
  lemma TwoViewers()
    ensures var s1 := AttachStep(Idle);
            var s2 := AttachStep(s1);
            var s3 := DetachStep(s2);
            var s4 := DetachStep(s3);
            && s1.clients == 1 && s1.running && s1.handle == Some(0)
            && s2.clients == 2 && s2.handle == Some(0) && s2.created == 1
            && s3.clients == 1 && s3.running && s3.handle == Some(0)
            && s4.clients == 0 && !s4.running && s4.handle.None?
            && s4.created == 1 && s4.retired == 1
  {
  }

  /** The attachment counter: the globals guarded by `client_count_semaphore`. */
  class Attachment {
    var clientCount: int
    var captureTaskHandle: Option<TaskId>
    var captureTaskRunning: bool
    /** Stands in for the RTOS's handle allocation: the next task gets this number. */
    var created: nat
    ghost var retired: nat

    ghost function State(): Lifecycle
      reads this
    {
      Lifecycle(clientCount, captureTaskHandle, captureTaskRunning, created, retired)
    }

    constructor ()
      ensures State() == Idle
    {
      clientCount, captureTaskHandle, captureTaskRunning := 0, None, false;
      created, retired := 0, 0;
    }

    /** The critical section at handler entry. */
    method Attach()
      modifies this
      ensures State() == AttachStep(old(State()))
    {
      clientCount := clientCount + 1;
      if clientCount > 0 {
        if captureTaskHandle.None? {
          captureTaskRunning := true;
          captureTaskHandle := Some(created);
          created := created + 1;
        }
      }
    }

    /** The critical section at handler exit, with the grace delay taken as enough
        for the capture task to see the lowered flag; its teardown is
        `FrameSlot.Drain`, which `StreamHandler` runs once no task is left. */
    method Detach()
      modifies this
      ensures State() == DetachStep(old(State()))
    {
      clientCount := clientCount - 1;
      if clientCount == 0 {
        if captureTaskHandle.Some? {
          captureTaskRunning := false;
          captureTaskHandle := None;
          retired := retired + 1;
        }
      }
    }
  }

  // ---------------------------------------------------------------------------
  // Frame slot (xSemaphore), capture task and send_frame
  // ---------------------------------------------------------------------------

  /** What the transport and the allocator do during one `send_frame` call. */
  datatype SendEnv = SendEnv(allocOk: bool, headerSent: EspErr, bodySent: EspErr, boundarySent: EspErr)

  /** The results of the three `httpd_resp_send_chunk` calls, in call order. */
  function Sends(env: SendEnv): seq<EspErr> {
    [env.headerSent, env.bodySent, env.boundarySent]
  }

  /** One call of `send_frame` against a slot content: the code it returns and
      the pieces the transport accepted. A healthy connection gets ESP_OK; the
      sends stop at the first failure, whose code is returned. */
  function FrameRound(slot: Option<Frame>, env: SendEnv): (r: (EspErr, seq<seq<byte>>))
    requires slot.Some? ==> slot.value.Sized()
    ensures slot.None? ==> r == (ESP_OK, [])
    ensures slot.Some? && !env.allocOk ==> r == (ESP_ERR_NO_MEM, [])
    ensures slot.Some? ==> |r.1| <= 3 && r.1 == Chunk(slot.value.buf)[..|r.1|]
    ensures slot.Some? && r.0 == ESP_OK ==> r.1 == Chunk(slot.value.buf)
    ensures r.0 != ESP_OK ==> |r.1| < 3
    ensures slot.Some? && env.allocOk ==>
              (r.0 == ESP_OK <==> env.headerSent == ESP_OK && env.bodySent == ESP_OK && env.boundarySent == ESP_OK)
    ensures slot.Some? && env.allocOk ==> forall i :: 0 <= i < |r.1| ==> Sends(env)[i] == ESP_OK
    ensures slot.Some? && env.allocOk && r.0 != ESP_OK ==> r.0 == Sends(env)[|r.1|]
  {
    match slot
    case None => (ESP_OK, [])
    case Some(fb) =>
      var pieces := Chunk(fb.buf);
      if !env.allocOk then (ESP_ERR_NO_MEM, [])
      else if env.headerSent != ESP_OK then (env.headerSent, [])
      else if env.bodySent != ESP_OK then (env.bodySent, pieces[..1])
      else if env.boundarySent != ESP_OK then (env.boundarySent, pieces[..2])
      else (ESP_OK, pieces)
  }

  /** The slot content after some iterations of the capture loop: the last
      fetch result, a failed one included, or the old content if none ran. */
  function After(slot: Option<Frame>, shots: seq<Option<Frame>>): Option<Frame> {
    if shots == [] then slot else shots[|shots| - 1]
  }

  predicate SizedShots(shots: seq<Option<Frame>>) {
    forall i :: 0 <= i < |shots| && shots[i].Some? ==> shots[i].value.Sized()
  }

  /** One `send_frame` call of a session: the capture iterations the capture
      task completed since the previous call, then the call's own conditions. */
  datatype Round = Round(shots: seq<Option<Frame>>, env: SendEnv)

  predicate SizedRounds(rounds: seq<Round>) {
    forall j :: 0 <= j < |rounds| ==> SizedShots(rounds[j].shots)
  }

  /** A session's send loop from slot content `slot`: the code of the last call
      (ESP_OK if every call succeeded), the pieces delivered, and the slot
      content afterwards. The loop ends at the first call that fails. */
  function Run(slot: Option<Frame>, rounds: seq<Round>): (EspErr, seq<seq<byte>>, Option<Frame>)
    requires slot.Some? ==> slot.value.Sized()
    requires SizedRounds(rounds)
    decreases |rounds|
  {
    if rounds == [] then (ESP_OK, [], slot)
    else
      var seen := After(slot, rounds[0].shots);
      var (code, pieces) := FrameRound(seen, rounds[0].env);
      if code != ESP_OK then (code, pieces, seen)
      else
        var (c, rest, last) := Run(seen, rounds[1..]);
        (c, pieces + rest, last)
  }

  /** The frames a session shows: the bytes of each call that found a frame, in order. */
  function Shown(slot: Option<Frame>, rounds: seq<Round>): seq<seq<byte>>
    requires SizedRounds(rounds)
    decreases |rounds|
  {
    if rounds == [] then []
    else
      var seen := After(slot, rounds[0].shots);
      (if seen.Some? then [seen.value.buf] else []) + Shown(seen, rounds[1..])
  }

  /** The frames the capture task acquires during a session: the successful
      fetches of the iterations before each call, up to the call that fails. */
  function Fetched(slot: Option<Frame>, rounds: seq<Round>): seq<Frame>
    requires slot.Some? ==> slot.value.Sized()
    requires SizedRounds(rounds)
    decreases |rounds|
  {
    if rounds == [] then []
    else
      var seen := After(slot, rounds[0].shots);
      Successes(rounds[0].shots) +
        (if FrameRound(seen, rounds[0].env).0 != ESP_OK then [] else Fetched(seen, rounds[1..]))
  }

  /** Fetched unfolded at call k. */
  lemma {:induction false} FetchedStep(slot: Option<Frame>, rounds: seq<Round>, k: nat)
    requires slot.Some? ==> slot.value.Sized()
    requires SizedRounds(rounds) && k < |rounds|
    ensures var seen := After(slot, rounds[k].shots);
      Fetched(slot, rounds[k..]) == Successes(rounds[k].shots) +
        (if FrameRound(seen, rounds[k].env).0 != ESP_OK then [] else Fetched(seen, rounds[k + 1..]))
  {
    assert rounds[k..][0] == rounds[k];
    assert rounds[k..][1..] == rounds[k + 1..];
  }

  /** The frames fetched so far, `got`, and those of the session resumed at
      call k make up the session's: a failing call k adds only its own
      iterations' fetches, a successful one resumes at k + 1. */
  lemma {:induction false} FetchedResumes(slot0: Option<Frame>, rounds: seq<Round>, k: nat, slot: Option<Frame>, got: seq<Frame>)
    requires slot0.Some? ==> slot0.value.Sized()
    requires slot.Some? ==> slot.value.Sized()
    requires SizedRounds(rounds) && k < |rounds|
    requires Fetched(slot0, rounds) == got + Fetched(slot, rounds[k..])
    ensures FrameRound(After(slot, rounds[k].shots), rounds[k].env).0 != ESP_OK ==>
              Fetched(slot0, rounds) == got + Successes(rounds[k].shots)
    ensures FrameRound(After(slot, rounds[k].shots), rounds[k].env).0 == ESP_OK ==>
              SizedRounds(rounds[k + 1..]) &&
              Fetched(slot0, rounds) == (got + Successes(rounds[k].shots)) + Fetched(After(slot, rounds[k].shots), rounds[k + 1..])
  {
    FetchedStep(slot, rounds, k);
    SizedSuffix(slot, rounds, k);
    var fetched := Successes(rounds[k].shots);
    var seen := After(slot, rounds[k].shots);
    if FrameRound(seen, rounds[k].env).0 != ESP_OK {
      assert fetched + [] == fetched;
    } else {
      var later := Fetched(seen, rounds[k + 1..]);
      assert got + (fetched + later) == (got + fetched) + later;
    }
  }

  lemma AppendAssoc<T>(a: seq<T>, b: seq<T>, c: seq<T>)
    ensures a + (b + c) == (a + b) + c
  {
  }

  /** Run unfolded at call k. */
  lemma {:induction false} RunStep(slot: Option<Frame>, rounds: seq<Round>, k: nat)
    requires slot.Some? ==> slot.value.Sized()
    requires SizedRounds(rounds) && k < |rounds|
    ensures var seen := After(slot, rounds[k].shots);
      var (code, pieces) := FrameRound(seen, rounds[k].env);
      var next := Run(seen, rounds[k + 1..]);
      Run(slot, rounds[k..]) == if code != ESP_OK then (code, pieces, seen) else (next.0, pieces + next.1, next.2)
  {
    assert rounds[k..][0] == rounds[k];
    assert rounds[k..][1..] == rounds[k + 1..];
  }

  /** With no calls left the loop has not failed. */
  lemma FailingRunHasRounds(slot: Option<Frame>, rounds: seq<Round>)
    requires slot.Some? ==> slot.value.Sized()
    requires SizedRounds(rounds) && Run(slot, rounds).0 != ESP_OK
    ensures rounds != []
  {
  }

  /** The suffix of a session from call k on, and the slot content that call
      sees, satisfy what `Run` asks of its arguments. */
  lemma SizedSuffix(slot: Option<Frame>, rounds: seq<Round>, k: nat)
    requires slot.Some? ==> slot.value.Sized()
    requires SizedRounds(rounds) && k < |rounds|
    ensures SizedRounds(rounds[k..]) && SizedRounds(rounds[k + 1..])
    ensures After(slot, rounds[k].shots).Some? ==> After(slot, rounds[k].shots).value.Sized()
  {
    assert SizedShots(rounds[k].shots);
  }

  /** The loop resumed at call k, with `before` already delivered, is the
      whole run; if call k fails, the run ends there. */
  lemma {:induction false} RunStops(slot0: Option<Frame>, rounds: seq<Round>, k: nat, slot: Option<Frame>, before: seq<seq<byte>>)
    requires slot0.Some? ==> slot0.value.Sized()
    requires slot.Some? ==> slot.value.Sized()
    requires SizedRounds(rounds) && k < |rounds|
    requires Run(slot0, rounds) ==
      (Run(slot, rounds[k..]).0, before + Run(slot, rounds[k..]).1, Run(slot, rounds[k..]).2)
    requires FrameRound(After(slot, rounds[k].shots), rounds[k].env).0 != ESP_OK
    ensures Run(slot0, rounds) == (FrameRound(After(slot, rounds[k].shots), rounds[k].env).0,
                                   before + FrameRound(After(slot, rounds[k].shots), rounds[k].env).1,
                                   After(slot, rounds[k].shots))
  {
    RunStep(slot, rounds, k);
  }

  /** ... and if call k succeeds, the loop resumes at call k + 1 with the
      call's pieces appended. */
  lemma {:induction false} RunContinues(slot0: Option<Frame>, rounds: seq<Round>, k: nat, slot: Option<Frame>, before: seq<seq<byte>>)
    requires slot0.Some? ==> slot0.value.Sized()
    requires slot.Some? ==> slot.value.Sized()
    requires SizedRounds(rounds) && k < |rounds|
    requires Run(slot, rounds[k..]).0 != ESP_OK
    requires Run(slot0, rounds) ==
      (Run(slot, rounds[k..]).0, before + Run(slot, rounds[k..]).1, Run(slot, rounds[k..]).2)
    requires FrameRound(After(slot, rounds[k].shots), rounds[k].env).0 == ESP_OK
    ensures var seen := After(slot, rounds[k].shots);
      var next := Run(seen, rounds[k + 1..]);
      k + 1 < |rounds| && next.0 != ESP_OK &&
      Run(slot0, rounds) == (next.0, (before + FrameRound(seen, rounds[k].env).1) + next.1, next.2)
  {
    SizedSuffix(slot, rounds, k);
    RunStep(slot, rounds, k);
    var seen := After(slot, rounds[k].shots);
    var pieces := FrameRound(seen, rounds[k].env).1;
    var next := Run(seen, rounds[k + 1..]);
    assert before + (pieces + next.1) == (before + pieces) + next.1;
    FailingRunHasRounds(seen, rounds[k + 1..]);
  }

  /** The send loop resumed at call k from slot content `slot`, with `sent`
      delivered and `got` fetched so far, is the session from `slot0`. */
  ghost predicate Resumes(slot0: Option<Frame>, rounds: seq<Round>, k: nat, slot: Option<Frame>,
                          sent: seq<seq<byte>>, got: seq<Frame>)
  {
    && (slot0.Some? ==> slot0.value.Sized())
    && (slot.Some? ==> slot.value.Sized())
    && SizedRounds(rounds) && k <= |rounds|
    && Run(slot, rounds[k..]).0 != ESP_OK
    && Run(slot0, rounds) ==
         (Run(slot, rounds[k..]).0, sent + Run(slot, rounds[k..]).1, Run(slot, rounds[k..]).2)
    && Fetched(slot0, rounds) == got + Fetched(slot, rounds[k..])
  }

  /** One call of the resumed loop: it ends the session, or the loop resumes at k + 1. */
  lemma {:induction false} ResumeStep(slot0: Option<Frame>, rounds: seq<Round>, k: nat, slot: Option<Frame>,
                                      sent: seq<seq<byte>>, got: seq<Frame>)
    requires Resumes(slot0, rounds, k, slot, sent, got)
    ensures k < |rounds|
    ensures SizedShots(rounds[k].shots)
    ensures var seen := After(slot, rounds[k].shots);
      (seen.Some? ==> seen.value.Sized()) &&
      var (code, pieces) := FrameRound(seen, rounds[k].env);
      if code != ESP_OK then
        Run(slot0, rounds) == (code, sent + pieces, seen) && Fetched(slot0, rounds) == got + Successes(rounds[k].shots)
      else
        Resumes(slot0, rounds, k + 1, seen, sent + pieces, got + Successes(rounds[k].shots))
  {
    FailingRunHasRounds(slot, rounds[k..]);
    SizedSuffix(slot, rounds, k);
    FetchedResumes(slot0, rounds, k, slot, got);
    if FrameRound(After(slot, rounds[k].shots), rounds[k].env).0 != ESP_OK {
      RunStops(slot0, rounds, k, slot, sent);
    } else {
      RunContinues(slot0, rounds, k, slot, sent);
    }
  }

  /** A call that finds the slot empty sends nothing and the loop carries on:
      the empty slot is a retry, not an error. */
  lemma EmptySlotRetries(slot: Option<Frame>, rounds: seq<Round>)
    requires slot.Some? ==> slot.value.Sized()
    requires SizedRounds(rounds) && rounds != []
    requires After(slot, rounds[0].shots) == None
    ensures Run(slot, rounds) == Run(None, rounds[1..])
  {
    var next := Run(None, rounds[1..]);
    assert [] + next.1 == next.1;
  }

  /** While every call succeeds, the wire carries one complete part per call
      that found a frame, and the client reads back exactly those frames. */
  lemma {:induction false} SessionStream(slot: Option<Frame>, rounds: seq<Round>)
    requires slot.Some? ==> slot.value.Sized()
    requires SizedRounds(rounds)
    requires Run(slot, rounds).0 == ESP_OK
    ensures Concat(Run(slot, rounds).1) == Stream(Shown(slot, rounds))
    ensures ParseStream(Concat(Run(slot, rounds).1)) == Some(Shown(slot, rounds))
    decreases |rounds|
  {
    if rounds != [] {
      var seen := After(slot, rounds[0].shots);
      var pieces := FrameRound(seen, rounds[0].env).1;
      var rest := Run(seen, rounds[1..]).1;
      var later := Shown(seen, rounds[1..]);
      SessionStream(seen, rounds[1..]);
      assert Run(slot, rounds).1 == pieces + rest;
      ConcatAppend(pieces, rest);
      if seen.Some? {
        assert ([seen.value.buf] + later)[1..] == later;
      } else {
        assert [] + later == later;
      }
    }
    StreamRoundTrip(Shown(slot, rounds));
  }

  /** The first viewer after boot meets an empty slot: the first call sends
      nothing, the second finds the frame the capture task fetched meanwhile
      and sends it, and the third fails on its header. */
  lemma FirstViewerAfterBoot(f: Frame, ok: SendEnv, broken: SendEnv)
    requires f.Sized()
    requires ok == SendEnv(true, ESP_OK, ESP_OK, ESP_OK)
    requires broken == SendEnv(true, ESP_FAIL, ESP_OK, ESP_OK)
    ensures var rounds := [Round([], ok), Round([Some(f)], ok), Round([], broken)];
      Run(None, rounds) == (ESP_FAIL, Chunk(f.buf), Some(f))
  {
    var rounds := [Round([], ok), Round([Some(f)], ok), Round([], broken)];
    var c := Chunk(f.buf);
    var none: seq<seq<byte>> := [];
    assert rounds[1..][1..] == [Round([], broken)];
    assert [Round([], broken)][1..] == [];
    assert FrameRound(Some(f), broken) == (ESP_FAIL, none);
    assert Run(Some(f), [Round([], broken)]) == (ESP_FAIL, none, Some(f));
    assert FrameRound(Some(f), ok) == (ESP_OK, c);
    assert Run(Some(f), rounds[1..]) == (ESP_FAIL, c + none, Some(f));
    assert FrameRound(None, ok) == (ESP_OK, none);
    assert Run(None, rounds) == (ESP_FAIL, none + (c + none), Some(f));
    assert none + (c + none) == c;
  }

  /** The slot `shared_fb` with the ghost history of the frames through it. */
  class FrameSlot {
    var sharedFb: Option<Frame>
    ghost var acquired: seq<Frame>
    ghost var returned: seq<Frame>

    ghost predicate Valid()
      reads this
    {
      && Accounted(acquired, returned, sharedFb)
      && (sharedFb.Some? ==> sharedFb.value.Sized())
    }

    constructor ()
      ensures Valid() && sharedFb == None && acquired == [] && returned == []
    {
      sharedFb := None;
      acquired, returned := [], [];
    }

    /** One pass of the capture loop's critical section: give the held frame back
        to the driver, then take whatever the driver returns, a failure included. */
    method CaptureStep(fetched: Option<Frame>)
      requires Valid()
      requires fetched.Some? ==> fetched.value.Sized()
      modifies this
      ensures Valid()
      ensures sharedFb == fetched
      ensures returned == old(returned) + Held(old(sharedFb))
      ensures acquired == old(acquired) + Held(fetched)
    {
      if sharedFb.Some? {
        returned := returned + [sharedFb.value];
      }
      sharedFb := fetched;
      acquired := acquired + Held(fetched);
    }

    /** The capture task's teardown: give back the held frame, if any, and empty the slot. */
    method Drain()
      requires Valid()
      modifies this
      ensures Valid()
      ensures sharedFb == None
      ensures acquired == old(acquired)
      ensures returned == old(returned) + Held(old(sharedFb))
    {
      if sharedFb.Some? {
        returned := returned + [sharedFb.value];
        sharedFb := None;
      }
    }

    /** Successive iterations of the capture loop while the flag is raised;
        `shots` are the results of `esp_camera_fb_get`. */
    method Capture(shots: seq<Option<Frame>>)
      requires Valid() && SizedShots(shots)
      modifies this
      ensures Valid()
      ensures sharedFb == After(old(sharedFb), shots)
      ensures acquired == old(acquired) + Successes(shots)
    {
      var i := 0;
      while i < |shots|
        invariant 0 <= i <= |shots|
        invariant Valid()
        invariant sharedFb == After(old(sharedFb), shots[..i])
        invariant acquired == old(acquired) + Successes(shots[..i])
      {
        CaptureStep(shots[i]);
        assert shots[..i + 1][..i] == shots[..i];
        i := i + 1;
      }
      assert shots[..i] == shots;
    }

    /** The capture task from creation to deletion: the iterations that saw the
        flag raised, then the teardown once it is lowered. Afterwards every frame
        acquired has been returned exactly once, in order. */
    method CaptureTask(shots: seq<Option<Frame>>)
      requires Valid() && SizedShots(shots)
      modifies this
      ensures Valid() && sharedFb == None
      ensures acquired == old(acquired) + Successes(shots)
      ensures returned == acquired
    {
      Capture(shots);
      Drain();
    }

    /** The copy-out in `send_frame`: with the slot empty, nothing to send and no
        error; otherwise a fresh buffer holding exactly the slot's bytes, unless
        the allocation fails. */
    method Snapshot(allocOk: bool) returns (res: EspErr, copy: array?<byte>)
      requires Valid()
      ensures sharedFb.None? ==> res == ESP_OK && copy == null
      ensures sharedFb.Some? && !allocOk ==> res == ESP_ERR_NO_MEM && copy == null
      ensures sharedFb.Some? && allocOk ==>
                res == ESP_OK && copy != null && fresh(copy) && copy[..] == sharedFb.value.buf
    {
      match sharedFb
      case None =>
        return ESP_OK, null;
      case Some(fb) =>
        if !allocOk {
          return ESP_ERR_NO_MEM, null;
        }
        var len := |fb.buf|;
        copy := new byte[len];
        var i := 0;
        while i < len
          invariant 0 <= i <= len
          invariant copy[..i] == fb.buf[..i]
        {
          copy[i] := fb.buf[i];
          i := i + 1;
        }
        res := ESP_OK;
    }

    /** `send_frame`: snapshot the slot, format the part header into the 64-byte
        buffer, then send header, bytes and boundary, stopping at the first failure. */
    method SendFrame(env: SendEnv) returns (res: EspErr, sent: seq<seq<byte>>)
      requires Valid()
      ensures (res, sent) == FrameRound(sharedFb, env)
    {
      var copy;
      res, copy := Snapshot(env.allocOk);
      sent := [];
      if res == ESP_OK && copy != null {
        ghost var pieces := Chunk(sharedFb.value.buf);
        var len := copy.Length;
        assert copy[..] == pieces[1];
        PartHeaderFits(len);
        var (partBuf, hlen) := Snprintf(PART_BUF_SIZE, PartHeader(len));
        res := env.headerSent;
        assert partBuf[..hlen] == PartHeader(len);
        if res == ESP_OK {
          sent := [partBuf[..hlen]];
          assert sent == pieces[..1];
          res := env.bodySent;
        }
        if res == ESP_OK {
          sent := sent + [copy[..]];
          assert sent == pieces[..2];
          res := env.boundarySent;
        }
        if res == ESP_OK {
          sent := sent + [Ascii(STREAM_BOUNDARY)];
          assert sent == pieces;
        }
      }
    }

    /** The session loop: call `send_frame` until it fails, with the capture
        task's iterations interleaved between the calls as `rounds` says. */
    method SendLoop(rounds: seq<Round>) returns (res: EspErr, sent: seq<seq<byte>>)
      requires Valid() && SizedRounds(rounds)
      requires Run(sharedFb, rounds).0 != ESP_OK
      modifies this
      ensures Valid()
      ensures (res, sent, sharedFb) == Run(old(sharedFb), rounds)
      ensures acquired == old(acquired) + Fetched(old(sharedFb), rounds)
    {
      ghost var slot0 := sharedFb;
      var k := 0;
      sent := [];
      ghost var got: seq<Frame> := [];
      assert rounds[0..] == rounds;
      assert [] + Run(slot0, rounds).1 == Run(slot0, rounds).1;
      assert [] + Fetched(slot0, rounds) == Fetched(slot0, rounds);
      while true
        invariant Valid()
        invariant acquired == old(acquired) + got
        invariant Resumes(slot0, rounds, k, sharedFb, sent, got)
        decreases |rounds| - k
      {
        ResumeStep(slot0, rounds, k, sharedFb, sent, got);
        AppendAssoc(old(acquired), got, Successes(rounds[k].shots));
        Capture(rounds[k].shots);
        got := got + Successes(rounds[k].shots);
        var out;
        res, out := SendFrame(rounds[k].env);
        sent := sent + out;
        if res != ESP_OK {
          return;
        }
        k := k + 1;
      }
    }
  }

  /** The engine as a whole: the lifecycle invariant, the slot's accounting,
      and, while no capture task runs, an empty slot, so that every frame
      acquired has been given back and none is left to be sent stale. */
  ghost predicate EngineInv(clients: Attachment, slot: FrameSlot)
    reads clients, slot
  {
    && Inv(clients.State())
    && slot.Valid()
    && (!clients.captureTaskRunning ==> slot.sharedFb.None? && slot.returned == slot.acquired)
  }

  /** A viewer joins: the attach critical section. A task it creates starts
      running, so the engine invariant holds with the flag raised. */
  method Join(clients: Attachment, slot: FrameSlot)
    modifies clients
    ensures clients.State() == AttachStep(old(clients.State()))
    ensures old(EngineInv(clients, slot)) ==> EngineInv(clients, slot) && clients.captureTaskRunning
  {
    clients.Attach();
    if old(EngineInv(clients, slot)) {
      AttachKeepsInv(old(clients.State()));
    }
  }

  /** One capture-loop iteration, which the task only runs while its flag is raised. */
  method CaptureWhileRunning(clients: Attachment, slot: FrameSlot, fetched: Option<Frame>)
    requires slot.Valid() && clients.captureTaskRunning
    requires fetched.Some? ==> fetched.value.Sized()
    modifies slot
    ensures slot.Valid()
    ensures slot.sharedFb == fetched
    ensures slot.returned == old(slot.returned) + Held(old(slot.sharedFb))
    ensures slot.acquired == old(slot.acquired) + Held(fetched)
    ensures old(EngineInv(clients, slot)) ==> EngineInv(clients, slot)
  {
    slot.CaptureStep(fetched);
  }

  /** A viewer leaves: the detach critical section, then, when no task is left
      running, the retired task's teardown (app_server.h:217-223), the grace
      delay being taken as long enough for it. */
  method Leave(clients: Attachment, slot: FrameSlot)
    requires slot.Valid()
    modifies clients, slot
    ensures slot.Valid()
    ensures clients.State() == DetachStep(old(clients.State()))
    ensures slot.acquired == old(slot.acquired)
    ensures clients.captureTaskRunning ==> slot.sharedFb == old(slot.sharedFb) && slot.returned == old(slot.returned)
    ensures !clients.captureTaskRunning ==>
              slot.sharedFb.None? && slot.returned == old(slot.returned) + Held(old(slot.sharedFb))
    ensures !clients.captureTaskRunning ==> slot.returned == slot.acquired
    ensures old(EngineInv(clients, slot)) && old(clients.clientCount) > 0 ==> EngineInv(clients, slot)
  {
    clients.Detach();
    if !clients.captureTaskRunning {
      slot.Drain();
      assert slot.returned + [] == slot.acquired;
    }
    if old(EngineInv(clients, slot)) && old(clients.clientCount) > 0 {
      DetachKeepsInv(old(clients.State()));
    }
  }

  /** `stream_handler` and `alt_stream_handler`, which are identical: join,
      stream until a send fails, leave, and report success to the server. */
  method StreamHandler(clients: Attachment, slot: FrameSlot, rounds: seq<Round>)
    returns (res: EspErr, sent: seq<seq<byte>>)
    requires slot.Valid() && SizedRounds(rounds)
    requires Run(slot.sharedFb, rounds).0 != ESP_OK
    modifies clients, slot
    ensures res == ESP_OK
    ensures slot.Valid()
    ensures sent == Run(old(slot.sharedFb), rounds).1
    ensures slot.acquired == old(slot.acquired) + Fetched(old(slot.sharedFb), rounds)
    ensures clients.captureTaskRunning ==> slot.sharedFb == Run(old(slot.sharedFb), rounds).2
    ensures !clients.captureTaskRunning ==> slot.sharedFb.None? && slot.returned == slot.acquired
    ensures clients.State() == DetachStep(AttachStep(old(clients.State())))
    ensures Inv(old(clients.State())) ==>
              Inv(clients.State())
              && clients.clientCount == old(clients.clientCount)
              && clients.captureTaskHandle == old(clients.captureTaskHandle)
              && clients.captureTaskRunning == old(clients.captureTaskRunning)
    ensures old(EngineInv(clients, slot)) ==> EngineInv(clients, slot)
  {
    Join(clients, slot);
    var code;
    code, sent := slot.SendLoop(rounds);
    Leave(clients, slot);
    if Inv(old(clients.State())) {
      SessionRestores(old(clients.State()));
      AttachKeepsInv(old(clients.State()));
    }
    res := ESP_OK;
  }

  /** Two overlapping viewers, A joining, B joining, A leaving, B leaving,
      with one frame captured while both watch and one while only B does.
      When A leaves the frame stays for B; when B leaves the slot is empty. */
  method TwoViewersEngine(f: Frame, g: Frame) returns (mid: Option<Frame>, left: Option<Frame>)
    requires f.Sized() && g.Sized()
    ensures mid == Some(f)
    ensures left == None
  {
    var clients := new Attachment();
    var slot := new FrameSlot();
    Join(clients, slot);
    Join(clients, slot);
    CaptureWhileRunning(clients, slot, Some(f));
    Leave(clients, slot);
    mid := slot.sharedFb;
    CaptureWhileRunning(clients, slot, Some(g));
    Leave(clients, slot);
    left := slot.sharedFb;
  }

  /** The only viewer after boot: whatever frames the capture task fetched
      during the session, none is left in the slot once the viewer has gone. */
  method OnlyViewerLeavesSlotEmpty(rounds: seq<Round>) returns (left: Option<Frame>)
    requires SizedRounds(rounds) && Run(None, rounds).0 != ESP_OK
    ensures left == None
  {
    var clients := new Attachment();
    var slot := new FrameSlot();
    var res, sent := StreamHandler(clients, slot, rounds);
    left := slot.sharedFb;
  }
}
