/** What `run` does on each of its exit paths, stated in closed form over the
    script, and an imperative rendering of the loop checked against it. */
module AppProofs {
  import opened App

  /* ----- Rounds ----- */

  lemma {:induction false} RoundsCons(k: nat)
    ensures [Draw, Read] + Rounds(k) == Rounds(k + 1)
  {
    if k > 0 {
      RoundsCons(k - 1);
      assert [Draw, Read] + Rounds(k) == ([Draw, Read] + Rounds(k - 1)) + [Draw, Read];
    }
  }

  lemma {:induction false} RoundsCounts(k: nat)
    ensures Count(Rounds(k), Draw) == k && Count(Rounds(k), Read) == k
    ensures Count(Rounds(k), Init) == 0 && Count(Rounds(k), Restore) == 0
  {
    if k > 0 {
      RoundsCounts(k - 1);
    }
  }

  /* ----- The loop body, iteration by iteration ----- */

  /** The result of the iteration the loop body exits at, read off the
      terminal's answers. */
  function ExitResult<Ev>(t: Tick<Ev>): (result: RunResult) {
    match t.draw
    case DrawErr(e) => Err(Render(e))
    case DrawOk =>
      match t.read
      case ReadErr(e) => Err(EventRead(e))
      case ReadOk(_) => Ok
  }

  /** The actions of the iteration the loop body exits at: a failed draw is
      followed by a restore and no read. */
  function ExitActions<Ev>(t: Tick<Ev>): (actions: seq<Action>) {
    if t.draw.DrawErr? then [Draw, Restore] else [Draw, Read]
  }

  lemma CoreStopsFirst<Ev>(handle: Ev -> bool, script: seq<Tick<Ev>>)
    requires |script| > 0 && !Continues(handle, script[0])
    ensures Core(handle, script) == (Exited(ExitResult(script[0])), ExitActions(script[0]))
  {
  }

  /** The iterations before the first stopping one are plain draw-read
      rounds, and the stopping iteration alone decides how the body exits. */
  lemma {:induction false} CoreStopsAt<Ev>(handle: Ev -> bool, script: seq<Tick<Ev>>, k: nat)
    requires StopsAt(handle, script, k)
    ensures Core(handle, script) == (Exited(ExitResult(script[k])), Rounds(k) + ExitActions(script[k]))
  {
    if k == 0 {
      CoreStopsFirst(handle, script);
      assert Rounds(0) + ExitActions(script[0]) == ExitActions(script[0]);
    } else {
      assert Continues(handle, script[0]);
      var rest := script[1..];
      assert StopsAt(handle, rest, k - 1) by {
        forall j | 0 <= j < k - 1 ensures Continues(handle, rest[j]) {
          assert rest[j] == script[j + 1];
        }
        assert rest[k - 1] == script[k];
      }
      CoreStopsAt(handle, rest, k - 1);
      assert rest[k - 1] == script[k];
      RoundsCons(k - 1);
      assert Core(handle, script) == (Core(handle, rest).0, [Draw, Read] + Core(handle, rest).1);
      assert [Draw, Read] + (Rounds(k - 1) + ExitActions(script[k])) == ([Draw, Read] + Rounds(k - 1)) + ExitActions(script[k]);
    }
  }

  lemma {:induction false} CoreAllContinue<Ev>(handle: Ev -> bool, script: seq<Tick<Ev>>)
    requires AllContinue(handle, script)
    ensures Core(handle, script) == (Pending, Rounds(|script|))
  {
    if |script| > 0 {
      assert Continues(handle, script[0]);
      var rest := script[1..];
      assert AllContinue(handle, rest) by {
        forall j | 0 <= j < |rest| ensures Continues(handle, rest[j]) {
          assert rest[j] == script[j + 1];
        }
      }
      CoreAllContinue(handle, rest);
      RoundsCons(|rest|);
    }
  }

  /* ----- Exit paths of run ----- */

  /** A run whose first stopping iteration is `k` returns that iteration's
      result, after `k` rounds, that iteration's actions and a restore. */
  lemma RunStopsAt<Ev>(handle: Ev -> bool, script: seq<Tick<Ev>>, k: nat)
    requires StopsAt(handle, script, k)
    ensures Run(handle, script) == Returned(ExitResult(script[k]), [Init] + Rounds(k) + ExitActions(script[k]) + [Restore])
  {
    CoreStopsAt(handle, script, k);
    var body := Rounds(k) + ExitActions(script[k]);
    assert Run(handle, script) == Returned(ExitResult(script[k]), [Init] + body + [Restore]);
    assert [Init] + body == [Init] + Rounds(k) + ExitActions(script[k]);
  }

  /** Normal quit: the handler asks to quit at iteration `k`. */
  lemma RunQuits<Ev>(handle: Ev -> bool, script: seq<Tick<Ev>>, k: nat)
    requires StopsAt(handle, script, k)
    requires script[k].draw.DrawOk? && script[k].read.ReadOk?
    ensures handle(script[k].read.event)
    ensures Run(handle, script) == Returned(Ok, [Init] + Rounds(k) + [Draw, Read, Restore])
  {
    RunStopsAt(handle, script, k);
    assert [Init] + Rounds(k) + [Draw, Read] + [Restore] == [Init] + Rounds(k) + [Draw, Read, Restore];
  }

  /** Render failure at iteration `k`: no read in that iteration, the
      terminal is restored inside the body and again after it. */
  lemma RunRenderFails<Ev>(handle: Ev -> bool, script: seq<Tick<Ev>>, k: nat, e: IoError)
    requires StopsAt(handle, script, k)
    requires script[k].draw == DrawErr(e)
    ensures Run(handle, script) == Returned(Err(Render(e)), [Init] + Rounds(k) + [Draw, Restore, Restore])
  {
    RunStopsAt(handle, script, k);
    assert [Init] + Rounds(k) + [Draw, Restore] + [Restore] == [Init] + Rounds(k) + [Draw, Restore, Restore];
  }

  /** Read failure at iteration `k`: the terminal is restored once, after
      the body. */
  lemma RunReadFails<Ev>(handle: Ev -> bool, script: seq<Tick<Ev>>, k: nat, e: IoError)
    requires StopsAt(handle, script, k)
    requires script[k].draw.DrawOk? && script[k].read == ReadErr(e)
    ensures Run(handle, script) == Returned(Err(EventRead(e)), [Init] + Rounds(k) + [Draw, Read, Restore])
  {
    RunStopsAt(handle, script, k);
    assert [Init] + Rounds(k) + [Draw, Read] + [Restore] == [Init] + Rounds(k) + [Draw, Read, Restore];
  }

  /** While the handler keeps declining, the loop keeps drawing and reading,
      and the terminal is never restored. */
  lemma RunKeepsLooping<Ev>(handle: Ev -> bool, script: seq<Tick<Ev>>)
    requires AllContinue(handle, script)
    ensures Run(handle, script) == Running([Init] + Rounds(|script|))
  {
    CoreAllContinue(handle, script);
  }

  /** Every script either keeps the loop going throughout, or has exactly
      one first stopping iteration. */
  lemma StopsAtExists<Ev>(handle: Ev -> bool, script: seq<Tick<Ev>>) returns (k: nat)
    requires !AllContinue(handle, script)
    ensures StopsAt(handle, script, k)
    ensures forall k' :: StopsAt(handle, script, k') ==> k' == k
  {
    k := 0;
    while Continues(handle, script[k])
      invariant 0 <= k < |script|
      invariant forall j :: 0 <= j < k ==> Continues(handle, script[j])
      decreases |script| - k
    {
      k := k + 1;
      if k == |script| {
        assert AllContinue(handle, script);
        assert false;
      }
    }
  }

  /* ----- Which error, and how many restores ----- */

  /** `run` fails with a render error carrying `e` exactly when the first
      stopping iteration is a draw that failed with `e`. */
  lemma RunRenderIff<Ev>(handle: Ev -> bool, script: seq<Tick<Ev>>, e: IoError)
    ensures Run(handle, script) == Returned(Err(Render(e)), Run(handle, script).trace)
        <==> exists k :: StopsAt(handle, script, k) && script[k].draw == DrawErr(e)
  {
    if AllContinue(handle, script) {
      RunKeepsLooping(handle, script);
    } else {
      var k := StopsAtExists(handle, script);
      RunStopsAt(handle, script, k);
    }
  }

  /** `run` fails with a read error carrying `e` exactly when, at the first
      stopping iteration, the draw succeeded and the read failed with `e`. */
  lemma RunEventReadIff<Ev>(handle: Ev -> bool, script: seq<Tick<Ev>>, e: IoError)
    ensures Run(handle, script) == Returned(Err(EventRead(e)), Run(handle, script).trace)
        <==> exists k :: StopsAt(handle, script, k) && script[k].draw.DrawOk? && script[k].read == ReadErr(e)
  {
    if AllContinue(handle, script) {
      RunKeepsLooping(handle, script);
    } else {
      var k := StopsAtExists(handle, script);
      RunStopsAt(handle, script, k);
    }
  }

  /** `run` succeeds exactly when, at the first stopping iteration, the draw
      and read succeeded and the handler asked to quit. */
  lemma RunOkIff<Ev>(handle: Ev -> bool, script: seq<Tick<Ev>>)
    ensures Run(handle, script) == Returned(Ok, Run(handle, script).trace)
        <==> exists k :: StopsAt(handle, script, k) && script[k].draw.DrawOk? && script[k].read.ReadOk?
  {
    if AllContinue(handle, script) {
      RunKeepsLooping(handle, script);
    } else {
      var k := StopsAtExists(handle, script);
      RunStopsAt(handle, script, k);
    }
  }

  /** The terminal is acquired once; a run that returns has restored it twice
      after a render failure and once otherwise; a run still looping has not
      restored it. */
  lemma RestoreCount<Ev>(handle: Ev -> bool, script: seq<Tick<Ev>>)
    ensures Count(Run(handle, script).trace, Init) == 1
    ensures Run(handle, script).Returned? ==>
      Count(Run(handle, script).trace, Restore) == (if Run(handle, script).result.Err? && Run(handle, script).result.error.Render? then 2 else 1)
    ensures Run(handle, script).Running? ==> Count(Run(handle, script).trace, Restore) == 0
  {
    if AllContinue(handle, script) {
      RunKeepsLooping(handle, script);
      RoundsCounts(|script|);
    } else {
      var k := StopsAtExists(handle, script);
      RunStopsAt(handle, script, k);
      RoundsCounts(k);
    }
  }

  /** A run that stops at iteration `k` has drawn `k + 1` frames, and read
      `k` events after a render failure, `k + 1` otherwise. */
  lemma DrawReadCounts<Ev>(handle: Ev -> bool, script: seq<Tick<Ev>>, k: nat)
    requires StopsAt(handle, script, k)
    ensures Count(Run(handle, script).trace, Draw) == k + 1
    ensures Count(Run(handle, script).trace, Read) == (if script[k].draw.DrawErr? then k else k + 1)
  {
    RunStopsAt(handle, script, k);
    RoundsCounts(k);
  }

  /** With the application's own handler, which always asks to quit, a run
      on any non-empty script returns after exactly one draw and at most one
      read, with the outcome of the first iteration. */
  lemma AppRunsOnce<Ev>(script: seq<Tick<Ev>>)
    requires |script| > 0
    ensures Run(HandleEvent, script).Returned?
    ensures Run(HandleEvent, script).result == ExitResult(script[0])
    ensures Count(Run(HandleEvent, script).trace, Draw) == 1
    ensures Count(Run(HandleEvent, script).trace, Read) <= 1
  {
    assert StopsAt(HandleEvent, script, 0);
    RunStopsAt(HandleEvent, script, 0);
    DrawReadCounts(HandleEvent, script, 0);
  }

  /* ----- The loop, imperatively ----- */

  /** `run` as a loop with early returns, mirroring the source's control
      flow; it agrees with `Run` on every script. */
  method RunLoop<Ev>(handle: Ev -> bool, script: seq<Tick<Ev>>) returns (st: Status)
    ensures st == Run(handle, script)
  {
    var trace := [Init];
    var i := 0;
    while i < |script|
      invariant 0 <= i <= |script|
      invariant forall j :: 0 <= j < i ==> Continues(handle, script[j])
      invariant trace == [Init] + Rounds(i)
    {
      var t := script[i];
      var before := trace;
      trace := trace + [Draw];
      if t.draw.DrawErr? {
        trace := trace + [Restore];
        st := Returned(Err(Render(t.draw.err)), trace + [Restore]);
        LoopExit(handle, script, i, before, trace + [Restore]);
        return;
      }
      trace := trace + [Read];
      if t.read.ReadErr? {
        st := Returned(Err(EventRead(t.read.err)), trace + [Restore]);
        LoopExit(handle, script, i, before, trace + [Restore]);
        return;
      }
      if handle(t.read.event) {
        st := Returned(Ok, trace + [Restore]);
        LoopExit(handle, script, i, before, trace + [Restore]);
        return;
      }
      assert trace == [Init] + Rounds(i + 1);
      i := i + 1;
    }
    st := Running(trace);
    RunKeepsLooping(handle, script);
  }

  /** The step that lets the loop return at iteration `i`. */
  lemma LoopExit<Ev>(handle: Ev -> bool, script: seq<Tick<Ev>>, i: nat, before: seq<Action>, trace: seq<Action>)
    requires i < |script| && !Continues(handle, script[i])
    requires forall j :: 0 <= j < i ==> Continues(handle, script[j])
    requires before == [Init] + Rounds(i)
    requires trace == before + ExitActions(script[i]) + [Restore]
    ensures Run(handle, script) == Returned(ExitResult(script[i]), trace)
  {
    RunStopsAt(handle, script, i);
  }
}
