/** The top-level application loop. The terminal is replaced by a script: for
    each iteration of the loop, the outcome of drawing the frame and the
    outcome of reading the next input event. The loop's effects on the
    terminal are recorded as a trace of actions. */
module App {

  /** An I/O error reported by the terminal backend; opaque here, but
      distinguishable, so that the error a run reports can be traced back
      to the operation that failed. */
  datatype IoError = IoError(id: nat)

  /** The errors a run can end with, each carrying the I/O error behind it. */
  datatype Error =
    | Render(source: IoError)
    | EventRead(source: IoError)

  /** The value `run` returns: success, or one of the two errors. */
  datatype RunResult = Ok | Err(error: Error)

  /** What the terminal answers when asked to draw one frame. */
  datatype DrawOutcome = DrawOk | DrawErr(err: IoError)

  /** What the terminal answers when asked for the next input event. */
  datatype ReadOutcome<Ev> = ReadOk(event: Ev) | ReadErr(err: IoError)

  /** The terminal's answers for one iteration of the loop. The read outcome
      is only consulted when the draw succeeds. */
  datatype Tick<Ev> = Tick(draw: DrawOutcome, read: ReadOutcome<Ev>)

  /** Effects on the terminal: acquiring it, drawing a frame, reading an
      event, and restoring its original mode. */
  datatype Action = Init | Draw | Read | Restore

  /** How the loop body left off: it returned a result, or the script ran out
      while it was still looping. */
  datatype CoreExit = Exited(result: RunResult) | Pending

  /** A run either returned a result, or is still running when the script
      ends; both carry the actions performed so far. */
  datatype Status = Returned(result: RunResult, trace: seq<Action>) | Running(trace: seq<Action>)

  /* ----- Helpers over traces and scripts ----- */

  function Count(trace: seq<Action>, a: Action): (n: nat) {
    multiset(trace)[a]
  }

  /** `k` complete loop iterations that neither failed nor quit. */
  function Rounds(k: nat): (rounds: seq<Action>) {
    if k == 0 then [] else Rounds(k - 1) + [Draw, Read]
  }

  /** Every read in the trace comes right after a draw. */
  predicate ReadsFollowDraws(trace: seq<Action>) {
    forall i :: 0 <= i < |trace| && trace[i] == Read ==> 0 < i && trace[i - 1] == Draw
  }

  /** An iteration after which the loop goes round again: the frame was
      drawn, an event was read, and the handler did not ask to quit. */
  predicate Continues<Ev>(handle: Ev -> bool, t: Tick<Ev>) {
    t.draw.DrawOk? && t.read.ReadOk? && !handle(t.read.event)
  }

  predicate AllContinue<Ev>(handle: Ev -> bool, script: seq<Tick<Ev>>) {
    forall j :: 0 <= j < |script| ==> Continues(handle, script[j])
  }

  /** Iteration `k` is the first one after which the loop does not go round. */
  predicate StopsAt<Ev>(handle: Ev -> bool, script: seq<Tick<Ev>>, k: int) {
    && 0 <= k < |script|
    && (forall j :: 0 <= j < k ==> Continues(handle, script[j]))
    && !Continues(handle, script[k])
  }

  /* ----- The application ----- */

  /** The application's event handler: every event asks to quit. */
  function HandleEvent<Ev>(event: Ev): (quit: bool)
    ensures quit
  {
    true
  }

  /** The loop body: draw, and on failure restore the terminal and return the
      render error; otherwise read, and on failure return the read error;
      otherwise hand the event to the handler and stop if it says so. */
  function Core<Ev>(handle: Ev -> bool, script: seq<Tick<Ev>>): (r: (CoreExit, seq<Action>))
    ensures r.0.Pending? <==> AllContinue(handle, script)
    ensures ReadsFollowDraws(r.1)
    ensures Init !in r.1
    ensures r.0.Pending? ==> Restore !in r.1
  {
    if |script| == 0 then (Pending, [])
    else
      var t := script[0];
      match t.draw
      case DrawErr(e) => (Exited(Err(Render(e))), [Draw, Restore])
      case DrawOk =>
        match t.read
        case ReadErr(e) => (Exited(Err(EventRead(e))), [Draw, Read])
        case ReadOk(event) =>
          if handle(event) then (Exited(Ok), [Draw, Read])
          else
            var rest := Core(handle, script[1..]);
            AllContinueCons(handle, script);
            ReadsFollowDrawsConcat([Draw, Read], rest.1);
            (rest.0, [Draw, Read] + rest.1)
  }

  /** `run`: acquire the terminal, run the loop body, and restore the
      terminal once the body has returned. */
  function Run<Ev>(handle: Ev -> bool, script: seq<Tick<Ev>>): (st: Status)
    ensures |st.trace| >= 1 && st.trace[0] == Init && Count(st.trace, Init) == 1
    ensures st.Running? <==> AllContinue(handle, script)
    ensures st.Returned? ==> st.trace[|st.trace| - 1] == Restore
    ensures st.Running? ==> Restore !in st.trace
    ensures ReadsFollowDraws(st.trace)
  {
    var (exit, trace) := Core(handle, script);
    ReadsFollowDrawsConcat([Init], trace);
    ReadsFollowDrawsConcat([Init] + trace, [Restore]);
    match exit
    case Pending => Running([Init] + trace)
    case Exited(result) => Returned(result, [Init] + trace + [Restore])
  }

  /* ----- Proof steps for the contracts of Core and Run ----- */

  /** The loop goes round on every iteration of a script exactly when it goes
      round on the first and on every iteration of the rest. */
  lemma AllContinueCons<Ev>(handle: Ev -> bool, script: seq<Tick<Ev>>)
    requires |script| > 0
    ensures AllContinue(handle, script) <==> Continues(handle, script[0]) && AllContinue(handle, script[1..])
  {
  }

  /** Joining two traces keeps every read right after a draw (the second
      cannot start with a read, since nothing precedes it there). */
  lemma ReadsFollowDrawsConcat(a: seq<Action>, b: seq<Action>)
    requires ReadsFollowDraws(a) && ReadsFollowDraws(b)
    ensures ReadsFollowDraws(a + b)
  {
  }
}
