/** The operating system as the fork server sees it: child processes, a control pipe to read from
    and a status pipe to write to. Everything that is not the server is a `future`: a sequence of
    events, interleaved in any way with the server's own calls. */
module ForkKernel {
  import opened Options

  datatype State = Running | Halted(reported: bool) | Zombie | Gone

  /** A child, whether the last word the server had of it was that it had stopped, and how many
      inputs its persistent loop has been through. */
  datatype Proc = Proc(state: State, seenStopped: bool, done: nat)

  datatype Status = Stop | Exit

  /** What the server writes to the status pipe. */
  datatype Out = Hello(flags: bv32) | DictLength(n: nat) | DictByte(b: bv8) | Pid(pid: nat) | Report(status: Status)

  /** What happens around the server. A child may die, stop or be resumed at any time; `Serves` is a
      child getting to the end of an input as its persistent loop has it. A `Turn` lets the server's
      pending call go on; the call fails when `ok` is false, and a write of many bytes may take only
      the first `n`. */
  datatype Event =
    | Word(w: bv32)
    | Dies(pid: nat)
    | Stops(pid: nat)
    | Resumes(pid: nat)
    | Serves(pid: nat)
    | Turn(ok: bool, n: nat)

  function WordsIn(events: seq<Event>): seq<bv32>
  {
    if events == [] then [] else (if events[0].Word? then [events[0].w] else []) + WordsIn(events[1..])
  }

  /** Nobody touches the children: all they do is run their persistent loop. */
  predicate Untouched(e: Event) {
    e.Word? || e.Serves? || e.Turn?
  }

  /** The effect of an event on the child it is about. A child whose loop is not through stops
      itself after an input, and exits after the last. */
  function Moved(p: Proc, e: Event, quota: nat): Proc {
    match e
    case Dies(_) => if p.state.Running? || p.state.Halted? then p.(state := Zombie) else p
    case Stops(_) => if p.state.Running? then p.(state := Halted(false)) else p
    case Resumes(_) => if p.state.Halted? then p.(state := Running) else p
    case Serves(_) =>
      if p.state.Running? then p.(state := if p.done + 1 < quota then Halted(false) else Zombie, done := p.done + 1)
      else p
    case _ => p
  }

  function Target(e: Event): Option<nat> {
    match e
    case Dies(p) => Some(p)
    case Stops(p) => Some(p)
    case Resumes(p) => Some(p)
    case Serves(p) => Some(p)
    case _ => None
  }

  /** The children that have not been reaped. */
  function Unreaped(procs: seq<Proc>): set<nat> {
    set i: nat | i < |procs| && !procs[i].state.Gone?
  }

  /** The inputs a child has been through, counting one it is at work on. */
  function ServedBy(p: Proc): nat {
    if p.state.Running? then p.done + 1 else p.done
  }

  /** Where an untouched child can be. */
  predicate InLoop(p: Proc, quota: nat) {
    match p.state
    case Running => p.done < quota && !p.seenStopped
    case Halted(reported) => 1 <= p.done < quota && (p.seenStopped ==> reported)
    case Zombie => p.done == quota && !p.seenStopped
    case Gone => true
  }

  /** What matters of the children: how many there were; whether the last one is up, was last seen
      stopped, and how many inputs it has served; and whether all the others have been reaped. */
  datatype Family = Family(count: nat, up: bool, seen: bool, served: nat, tidy: bool)

  /** The inputs served are only followed while nobody touches the children. */
  ghost function FamilyOf(procs: seq<Proc>, gentle: bool): Family {
    var up := procs != [] && !procs[|procs| - 1].state.Gone?;
    Family(|procs|, up, up && procs[|procs| - 1].seenStopped,
           if gentle && procs != [] then ServedBy(procs[|procs| - 1]) else 0,
           forall i :: 0 <= i < |procs| - 1 ==> procs[i].state.Gone?)
  }

  ghost predicate LastInLoop(procs: seq<Proc>, quota: nat) {
    procs != [] ==> InLoop(procs[|procs| - 1], quota)
  }

  /** An event moves a child, but not what matters of the family. */
  lemma EventKeepsFamily(procs: seq<Proc>, i: nat, e: Event, quota: nat, gentle: bool)
    requires i < |procs| && (gentle ==> Untouched(e) && LastInLoop(procs, quota))
    ensures var now := procs[i := Moved(procs[i], e, quota)];
            FamilyOf(now, gentle) == FamilyOf(procs, gentle) && (gentle ==> LastInLoop(now, quota))
  {
    var now := procs[i := Moved(procs[i], e, quota)];
    assert forall j :: 0 <= j < |procs| ==> now[j].state.Gone? == procs[j].state.Gone?;
    assert FamilyOf(now, gentle).tidy <==> forall j :: 0 <= j < |procs| - 1 ==> procs[j].state.Gone?;
  }

  /** A family without a child that is up has nothing left to reap. */
  lemma NoneUnreaped(procs: seq<Proc>, gentle: bool)
    ensures Unreaped(procs) == {} <==> !FamilyOf(procs, gentle).up && FamilyOf(procs, gentle).tidy
  {
    var f := FamilyOf(procs, gentle);
    if !f.up && f.tidy {
      forall i: nat | i < |procs|
        ensures procs[i].state.Gone?
      {
      }
    } else if f.up {
      assert |procs| - 1 in Unreaped(procs);
    } else {
      var i: nat :| i < |procs| - 1 && !procs[i].state.Gone?;
      assert i in Unreaped(procs);
    }
  }

  lemma Born(procs: seq<Proc>, gentle: bool)
    ensures FamilyOf(procs + [Proc(Running, false, 0)], gentle)
         == Family(|procs| + 1, true, false, if gentle then 1 else 0,
                   FamilyOf(procs, gentle).tidy && !FamilyOf(procs, gentle).up)
  {
    var more := procs + [Proc(Running, false, 0)];
    assert forall i :: 0 <= i < |procs| ==> more[i] == procs[i];
    assert FamilyOf(more, gentle).tidy <==> forall i :: 0 <= i < |procs| ==> procs[i].state.Gone?;
  }

  lemma LastChanged(procs: seq<Proc>, p: Proc, gentle: bool)
    requires procs != []
    ensures FamilyOf(procs[|procs| - 1 := p], gentle)
         == Family(|procs|, !p.state.Gone?, !p.state.Gone? && p.seenStopped, if gentle then ServedBy(p) else 0,
                   FamilyOf(procs, gentle).tidy)
  {
    var now := procs[|procs| - 1 := p];
    assert forall i :: 0 <= i < |procs| - 1 ==> now[i] == procs[i];
    assert FamilyOf(now, gentle).tidy <==> forall i :: 0 <= i < |procs| - 1 ==> procs[i].state.Gone?;
  }

  class Kernel {
    /** How many inputs the persistent loop of a child runs. */
    const quota: nat
    /** Whether this is a run in which nobody touches the children. */
    ghost const gentle: bool

    var future: seq<Event>
    var procs: seq<Proc>
    var inbox: seq<bv32>
    var taken: seq<bv32>
    var sent: seq<Out>
    /** For each fork so far, the children that had not been reaped at that moment. */
    var overlaps: seq<set<nat>>

    constructor (future: seq<Event>, quota: nat)
      requires quota >= 1
      ensures this.future == future && this.quota == quota
      ensures procs == [] && inbox == [] && taken == [] && sent == [] && overlaps == []
      ensures gentle == (forall i :: 0 <= i < |future| ==> Untouched(future[i])) && Calm()
    {
      this.future, this.quota := future, quota;
      procs, inbox, taken, sent, overlaps := [], [], [], [], [];
      gentle := forall i :: 0 <= i < |future| ==> Untouched(future[i]);
    }

    /** In a gentle run no event touches a child, and the last child is where its loop can be. */
    ghost predicate Calm()
      reads this
    {
      && quota >= 1
      && (gentle ==> (forall i :: 0 <= i < |future| ==> Untouched(future[i])) && LastInLoop(procs, quota))
    }

    /** The control words of the whole run, in order: read, waiting in the pipe, still to be sent. */
    ghost function Control(): seq<bv32>
      reads this
    {
      taken + inbox + WordsIn(future)
    }

    ghost function Kids(): Family
      reads this
    {
      FamilyOf(procs, gentle)
    }

    /** No fork so far met a child that had not been reaped. */
    ghost predicate NeverOverlapped()
      reads this
    {
      |overlaps| == |procs| && forall i :: 0 <= i < |overlaps| ==> overlaps[i] == {}
    }

    method Happen(e: Event)
      requires Calm() && future != [] && e == future[0]
      modifies this`future, this`procs, this`inbox
      ensures Calm() && Kids() == old(Kids())
      ensures future == old(future)[1..]
      ensures Control() == old(Control())
    {
      var p := Target(e);
      if p.Some? && p.value < |procs| {
        EventKeepsFamily(procs, p.value, e, quota, gentle);
        procs := procs[p.value := Moved(procs[p.value], e, quota)];
      }
      if e.Word? {
        inbox := inbox + [e.w];
      }
      future := future[1..];
    }

    /** Let the rest of the world run until the server gets a turn. None: the run ends before. */
    method Await() returns (turn: Option<Event>)
      requires Calm()
      modifies this`future, this`procs, this`inbox
      ensures Calm() && Kids() == old(Kids())
      ensures Control() == old(Control())
      ensures |future| <= |old(future)|
      ensures turn.Some? ==> turn.value.Turn? && |future| < |old(future)|
    {
      while future != []
        invariant Calm() && Kids() == old(Kids())
        invariant Control() == old(Control())
        invariant |future| <= |old(future)|
        decreases |future|
      {
        var e := future[0];
        Happen(e);
        if e.Turn? {
          return Some(e);
        }
      }
      turn := None;
    }

    /** A four-byte read of the control pipe. None: it failed, or the run ended while it blocked. */
    method Read() returns (w: Option<bv32>)
      requires Calm()
      modifies this`future, this`procs, this`inbox, this`taken
      ensures Calm() && Kids() == old(Kids())
      ensures Control() == old(Control())
      ensures |future| <= |old(future)|
      ensures w.None? ==> taken == old(taken)
      ensures w.Some? ==> taken == old(taken) + [w.value] && |future| < |old(future)|
    {
      w := None;
      while true
        invariant Calm() && Kids() == old(Kids())
        invariant Control() == old(Control())
        invariant taken == old(taken) && w.None?
        invariant |future| <= |old(future)|
        decreases |future|
      {
        var turn := Await();
        if turn.None? || !turn.value.ok {
          return;
        }
        if inbox != [] {
          ghost var before := Control();
          w, taken, inbox := Some(inbox[0]), taken + [inbox[0]], inbox[1..];
          assert Control() == before;
          return;
        }
      }
    }

    /** A write that is taken whole or fails. */
    method Write(out: Out) returns (ok: bool)
      requires Calm()
      modifies this`future, this`procs, this`inbox, this`sent
      ensures Calm() && Kids() == old(Kids())
      ensures Control() == old(Control())
      ensures |future| <= |old(future)|
      ensures sent == if ok then old(sent) + [out] else old(sent)
    {
      var turn := Await();
      ok := turn.Some? && turn.value.ok;
      if ok {
        sent := sent + [out];
      }
    }

    /** A write of many bytes that may be cut short; 0 stands for a failure. */
    method WriteSome(outs: seq<Out>) returns (n: nat)
      requires Calm() && outs != []
      modifies this`future, this`procs, this`inbox, this`sent
      ensures Calm() && Kids() == old(Kids())
      ensures Control() == old(Control())
      ensures |future| <= |old(future)|
      ensures n <= |outs| && sent == old(sent) + outs[..n]
    {
      var turn := Await();
      n := 0;
      if turn.Some? && turn.value.ok {
        n := if turn.value.n < 1 then 1 else if turn.value.n > |outs| then |outs| else turn.value.n;
        sent := sent + outs[..n];
      }
    }

    method Fork() returns (pid: Option<nat>)
      requires Calm()
      modifies this`future, this`procs, this`inbox, this`overlaps
      ensures Calm() && Control() == old(Control())
      ensures |future| <= |old(future)|
      ensures pid.None? ==> Kids() == old(Kids()) && overlaps == old(overlaps)
      ensures pid.Some? ==>
        && pid.value == old(Kids()).count
        && Kids() == Family(pid.value + 1, true, false, if gentle then 1 else 0, old(Kids()).tidy && !old(Kids()).up)
      ensures pid.Some? && old(NeverOverlapped()) && old(Kids()).tidy && !old(Kids()).up ==> NeverOverlapped()
    {
      var turn := Await();
      if turn.None? || !turn.value.ok {
        return None;
      }
      NoneUnreaped(procs, gentle);
      pid := Some(|procs|);
      overlaps := overlaps + [Unreaped(procs)];
      Born(procs, gentle);
      procs := procs + [Proc(Running, false, 0)];
    }

    /** SIGCONT: wakes a stopped child and does nothing to any other. An untouched child that was
        seen stopped goes on to its next input. */
    method Continue(pid: nat) returns (alive: bool)
      requires Calm() && pid + 1 == |procs| && Kids().seen
      modifies this`future, this`procs, this`inbox
      ensures Calm() && Control() == old(Control())
      ensures |future| <= |old(future)|
      ensures !alive ==> Kids() == old(Kids())
      ensures alive ==> Kids() == old(Kids()).(seen := false, served := if gentle then old(Kids()).served + 1 else 0)
    {
      var turn := Await();
      alive := turn.Some?;
      if alive {
        var p := procs[pid];
        var now := p.(state := if p.state.Halted? then Running else p.state, seenStopped := false);
        LastChanged(procs, now, gentle);
        procs := procs[pid := now];
      }
    }

    /** waitpid: reaps a dead child; with `untraced` it also reports a stop, once for each stop. An
        untouched child stops until it has served its quota, and then exits. */
    method WaitPid(pid: nat, untraced: bool) returns (status: Option<Status>)
      requires Calm() && pid + 1 == |procs|
      modifies this`future, this`procs, this`inbox
      ensures Calm() && Control() == old(Control())
      ensures |future| <= |old(future)|
      ensures status.None? ==> Kids() == old(Kids())
      ensures status.Some? ==> |future| < |old(future)|
      ensures status.Some? && status.value.Exit? ==>
        Kids() == old(Kids()).(up := false, seen := false) && (gentle ==> old(Kids()).served == quota)
      ensures status.Some? && status.value.Stop? ==>
        && untraced && old(Kids()).up && Kids() == old(Kids()).(seen := true)
        && (gentle ==> old(Kids()).served < quota)
    {
      while true
        invariant Calm() && Kids() == old(Kids())
        invariant Control() == old(Control())
        invariant |future| <= |old(future)|
        decreases |future|
      {
        var turn := Await();
        if turn.None? || !turn.value.ok || procs[pid].state.Gone? {
          return None;
        }
        var p := procs[pid];
        if p.state.Zombie? {
          LastChanged(procs, p.(state := Gone, seenStopped := false), gentle);
          procs := procs[pid := p.(state := Gone, seenStopped := false)];
          return Some(Exit);
        }
        if untraced && p.state == Halted(false) {
          LastChanged(procs, p.(state := Halted(true), seenStopped := true), gentle);
          procs := procs[pid := p.(state := Halted(true), seenStopped := true)];
          return Some(Stop);
        }
      }
    }
  }
}
