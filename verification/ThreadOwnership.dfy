/** Who frees the state of a child thread (lua_llthreads.c): the parent's operations interleaved
    in any way with the steps of the child. */
module ThreadOwnership {
  import opened Wrappers

  datatype Side = Parent | Child

  /** The child structure with its Lua state: allocated, or freed by one side. */
  datatype Memory = Live | Freed(side: Side)

  /** Where the child thread is: not created, in the Lua code, back from it, or ended. */
  datatype Progress = NotCreated | Running | Returned | Exited

  /** The operating system's thread: attached until it is joined or detached. */
  datatype Handle = NoThread | Attached | Joined | Detached

  datatype Reply = Fail | Self | ExitCode | Results(status: int) | IsAlive(alive: bool)

  /** The table in the source: which side destroys the child state. */
  function Destroyer(detached: bool, joinable: bool): Side {
    if !detached && joinable then Parent else Child
  }

  /** What Lua may do with the thread object until it is collected. */
  datatype Op = Start(detached: bool, joinable: Option<bool>) | Join(timeout: int) | Alive

  class Thread {
    // llthread_child_t
    var mem: Memory
    var childDetached: bool
    var childJoinable: bool
    var status: int
    var pc: Progress
    // the operating system
    var handle: Handle
    /** Whether it still reports a thread that has ended as long as it is not joined. */
    const lingers: bool
    // llthread_t
    var child: bool
    var started: bool
    var detached: bool
    var joined: bool
    var joinable: bool
    var gone: bool
    /** How often the child was freed, and the thread joined or detached. */
    ghost var frees: nat
    ghost var settled: nat

    // ------------------------------------------------------------------- invariants

    ghost predicate ChildFrees()
      reads this`childDetached, this`childJoinable
    {
      childDetached || !childJoinable
    }

    /** What holds at every moment, in the middle of the parent's operations too. */
    ghost predicate Core()
      reads this`mem, this`pc, this`handle, this`frees, this`settled, this`childDetached, this`childJoinable
    {
      frees == (if mem == Live then 0 else 1)
      && settled == (if handle == Joined || handle == Detached then 1 else 0)
      && (pc == NotCreated ==> handle == NoThread && (mem == Live || mem == Freed(Parent)))
      && (pc != NotCreated ==> handle != NoThread)
      && (pc == Running || pc == Returned ==> mem == Live)
      && (pc == Exited ==> if ChildFrees() then mem == Freed(Child) else mem == Live || mem == Freed(Parent))
      && (handle == Joined ==> pc == Exited)
    }

    /** What holds between the parent's operations until the object is collected. */
    ghost predicate Valid()
      reads this
    {
      Core() && !gone
      && if !started then pc == NotCreated && !detached && !joined && !joinable && child && mem == Live && !childDetached && !childJoinable
         else pc != NotCreated && detached == childDetached && joinable == childJoinable
              && handle == (if detached && !joinable then Handle.Detached else if joined then Handle.Joined else Attached)
              && (detached && !joinable ==> !joined && !child)
              && (detached == joinable ==> child)
              && (!detached && joinable ==> (child <==> mem == Live) && (!joined ==> child))
    }

    // --------------------------------------------------------------- the child thread

    /** One step of llthread_child_thread_run. The child structure is only touched while it is
        allocated. */
    method ChildStep()
      requires Core() && (pc == Running || pc == Returned)
      modifies this`mem, this`status, this`pc, this`frees
      ensures Core() && (pc == if old(pc) == Running then Returned else Exited) && (!ChildFrees() ==> mem == old(mem))
    {
      if pc == Running {
        var result: int := *;
        assert mem == Live;
        status := result;
        pc := Returned;
      } else {
        assert mem == Live;
        if childDetached || !childJoinable {
          FreeChild(Child);
        }
        pc := Exited;
      }
    }

    /** llthread_child_destroy */
    method FreeChild(side: Side)
      requires mem == Live
      modifies this`mem, this`frees
      ensures mem == Freed(side) && frees == old(frees) + 1
    {
      mem := Freed(side);
      frees := frees + 1;
    }

    /** The child gets some time: any number of steps. */
    method Interleave()
      requires Core()
      modifies this`mem, this`status, this`pc, this`frees
      ensures Core()
      ensures old(pc) == NotCreated || old(pc) == Exited ==> pc == old(pc) && mem == old(mem) && status == old(status)
      ensures old(pc) != NotCreated ==> pc != NotCreated
      ensures !ChildFrees() ==> mem == old(mem)
    {
      var steps: nat := *;
      while steps > 0 && (pc == Running || pc == Returned)
        invariant Core() && (!ChildFrees() ==> mem == old(mem))
        invariant old(pc) == NotCreated || old(pc) == Exited ==> pc == old(pc) && mem == old(mem) && status == old(status)
        invariant old(pc) != NotCreated ==> pc != NotCreated
      {
        ChildStep();
        steps := steps - 1;
      }
    }

    /** The child runs to its end. */
    method Finish()
      requires Core() && pc != NotCreated
      modifies this`mem, this`status, this`pc, this`frees
      ensures Core() && pc == Exited && (!ChildFrees() ==> mem == old(mem))
      ensures old(pc) == Exited ==> mem == old(mem) && status == old(status)
    {
      while pc != Exited
        invariant Core() && pc != NotCreated && (!ChildFrees() ==> mem == old(mem))
        invariant old(pc) == Exited ==> pc == Exited && mem == old(mem) && status == old(status)
        decreases if pc == Running then 2 else if pc == Returned then 1 else 0
      {
        ChildStep();
      }
    }

    // ------------------------------------------------------------ the operating system

    method PthreadCreate()
      requires Core() && pc == NotCreated && mem == Live
      modifies this`pc, this`handle
      ensures Core() && pc == Running && handle == Attached
    {
      pc, handle := Running, Attached;
    }

    method PthreadDetach()
      requires Core() && handle == Attached
      modifies this`handle, this`settled
      ensures Core() && handle == Handle.Detached
    {
      handle, settled := Handle.Detached, settled + 1;
    }

    /** Waits for the child, then the thread is gone. */
    method PthreadJoin()
      requires Core() && handle == Attached
      modifies this`mem, this`status, this`pc, this`frees, this`handle, this`settled
      ensures Core() && handle == Handle.Joined && pc == Exited && (!ChildFrees() ==> mem == old(mem))
      ensures old(pc) == Exited ==> status == old(status)
    {
      Finish();
      handle, settled := Handle.Joined, settled + 1;
    }

    /** pthread_kill with signal 0: a thread that runs is alive; one that has ended is reported as
        the system does it. */
    method PthreadProbe() returns (alive: bool)
      requires Core() && handle == Attached
      ensures alive <==> pc != Exited || lingers
    {
      alive := pc != Exited || lingers;
    }

    // --------------------------------------------------------------------- the parent

    /** llthread_new */
    constructor (lingers: bool)
      ensures this.lingers == lingers && Valid() && !started && frees == 0 && settled == 0
    {
      this.lingers := lingers;
      mem, childDetached, childJoinable, status, pc := Live, false, false, 0, NotCreated;
      handle, child, started, detached, joined, joinable, gone := NoThread, true, false, false, false, false, false;
      frees, settled := 0, 0;
    }

    /** The assertions of llthread_validate. */
    ghost predicate Validated()
      reads this
    {
      if !started then !detached && !joined && !joinable
      else detached ==> (child <==> joinable)
    }

    /** llthread_detach */
    method DetachThread()
      requires Core() && started && child && handle == (if joined then Handle.Joined else Attached)
      modifies this`mem, this`status, this`pc, this`frees, this`child, this`handle, this`settled
      ensures Core() && !child && (pc == NotCreated <==> old(pc) == NotCreated) && (!ChildFrees() ==> mem == old(mem))
      ensures handle == if joined then Handle.Joined else Handle.Detached
    {
      child := false;
      Interleave();
      if joined {
        return;
      }
      PthreadDetach();
    }

    /** start, with llthread_start. */
    method LuaStart(startDetached: bool, joinable0: Option<bool>) returns (r: Reply)
      requires Valid()
      modifies this
      ensures Valid() && started
      ensures r == if old(started) then Fail else Self
      ensures old(started) ==> detached == old(detached) && joinable == old(joinable)
      ensures !old(started) ==>
        detached == startDetached && joinable == if joinable0.Some? then joinable0.value else !startDetached
    {
      var canJoin := if joinable0.Some? then joinable0.value else !startDetached;
      Interleave();
      if started {
        return Fail;
      }
      StartThread(startDetached, canJoin);
      return Self;
    }

    /** llthread_start. The child may run, end and free itself between any two statements. */
    method StartThread(startDetached: bool, canJoin: bool)
      requires Valid() && !started
      modifies this
      ensures Valid() && started && detached == startDetached && joinable == canJoin
    {
      assert Validated();
      childJoinable := childJoinable || canJoin;
      childDetached := childDetached || startDetached;
      PthreadCreate();
      Interleave();
      SetFlags(startDetached, canJoin);
      if startDetached && !canJoin {
        DetachThread();
      }
      Interleave();
      assert Validated();
    }

    method SetFlags(startDetached: bool, canJoin: bool)
      requires Core() && pc != NotCreated
      modifies this`mem, this`status, this`pc, this`frees, this`started, this`joinable, this`detached
      ensures Core() && pc != NotCreated && (!ChildFrees() ==> mem == old(mem)) && started
      ensures joinable == (old(joinable) || canJoin) && detached == (old(detached) || startDetached)
    {
      SetStarted();
      SetJoinable(canJoin);
      detached := detached || startDetached;
      Interleave();
    }

    method SetStarted()
      requires Core() && pc != NotCreated
      modifies this`mem, this`status, this`pc, this`frees, this`started
      ensures Core() && pc != NotCreated && (!ChildFrees() ==> mem == old(mem)) && started
    {
      started := true;
      Interleave();
    }

    method SetJoinable(canJoin: bool)
      requires Core() && pc != NotCreated
      modifies this`mem, this`status, this`pc, this`frees, this`joinable
      ensures Core() && pc != NotCreated && (!ChildFrees() ==> mem == old(mem)) && joinable == (old(joinable) || canJoin)
    {
      joinable := joinable || canJoin;
      Interleave();
    }

    /** llthread_join: with timeout 0 a thread that seems alive is not waited for. */
    method JoinThread(timeout: int) returns (timedOut: bool)
      requires Valid() && started && !(detached && !joinable)
      modifies this`mem, this`status, this`pc, this`frees, this`handle, this`settled, this`joined
      ensures Valid()
      ensures timedOut ==> timeout == 0 && joined == old(joined)
      ensures old(pc) == Exited && !lingers ==> !timedOut
      ensures !timedOut ==> joined
      ensures old(joined) ==> status == old(status)
    {
      Interleave();
      assert Validated();
      if joined {
        return false;
      }
      if timeout == 0 {
        var alive := PthreadProbe();
        if alive {
          return true;
        }
      }
      Interleave();
      PthreadJoin();
      joined := true;
      assert Validated();
      return false;
    }

    /** The results are copied out of the child state, which must still be there. */
    method ReadChild() returns (st: int)
      requires mem == Live
      ensures st == status
    {
      st := status;
    }

    /** join */
    method LuaJoin(timeout: int) returns (r: Reply)
      requires Valid()
      modifies this`mem, this`status, this`pc, this`frees, this`handle, this`settled, this`joined, this`child
      ensures Valid()
      ensures !old(started) || (detached && !joinable) || old(joined) ==> r == Fail
      ensures old(started) && !(detached && !joinable) && !old(joined) ==>
        r == if !joined then Fail else if Destroyer(detached, joinable) == Parent then Results(status) else ExitCode
      ensures old(started) && !(detached && !joinable) && (timeout != 0 || (old(pc) == Exited && !lingers)) ==> joined
    {
      Interleave();
      if !started || (detached && !joinable) || joined {
        return Fail;
      }
      var timedOut := JoinThread(timeout);
      if child && joined {
        if detached || !joinable {
          return ExitCode;
        }
        var st := ReadChild();
        FreeChild(Parent);
        child := false;
        return Results(st);
      }
      return Fail;
    }

    /** alive */
    method LuaAlive() returns (r: Reply)
      requires Valid()
      modifies this`mem, this`status, this`pc, this`frees
      ensures Valid()
      ensures r == Fail <==> !started || (detached && !joinable) || joined
      ensures r != Fail ==> r.IsAlive? && (!r.alive ==> pc == Exited && !lingers) && (old(pc) == Exited && !lingers ==> !r.alive)
    {
      Interleave();
      if !started || (detached && !joinable) || joined {
        return Fail;
      }
      var alive := PthreadProbe();
      return IsAlive(alive);
    }

    /** The collector: llthread_destroy. */
    method Gc()
      requires Valid()
      modifies this`mem, this`status, this`pc, this`frees, this`handle, this`settled, this`joined, this`child, this`gone
      ensures Core() && gone
      ensures !started ==> pc == NotCreated && mem == Freed(Parent)
      ensures started ==> pc != NotCreated && settled == 1 && (!ChildFrees() ==> mem == Freed(Parent))
    {
      Interleave();
      if !started {
        FreeChild(Parent);
        child := false;
      } else if detached {
        if joinable {
          DetachThread();
        }
      } else {
        if !joined {
          var _ := JoinThread(-1);
        }
        if joinable && child {
          FreeChild(Parent);
          child := false;
        }
      }
      Interleave();
      gone := true;
    }
  }

  /** A whole life: any operations, with the child interleaved in any way, then collection, then
      the child ends if it has not yet. The child state is freed exactly once, by the side the
      table names; a thread that was created is joined or detached exactly once. No operation
      touches the child state after it is freed, or the thread after it is settled: that is
      what the methods above require. */
  method Life(ops: seq<Op>, lingers: bool) returns (t: Thread)
    ensures fresh(t) && t.frees == 1 && t.gone
    ensures t.mem == Freed(if t.started then Destroyer(t.childDetached, t.childJoinable) else Parent)
    ensures t.settled == if t.started then 1 else 0
    ensures t.started ==> t.pc == Exited
    ensures t.started <==> exists k :: 0 <= k < |ops| && ops[k].Start?
  {
    t := new Thread(lingers);
    for i := 0 to |ops|
      invariant fresh(t) && t.Valid() && (t.started <==> exists k :: 0 <= k < i && ops[k].Start?)
    {
      match ops[i] {
        case Start(d, j) => var _ := t.LuaStart(d, j);
        case Join(timeout) => var _ := t.LuaJoin(timeout);
        case Alive => var _ := t.LuaAlive();
      }
    }
    t.Gc();
    if t.started {
      t.Finish();
    }
  }
}
