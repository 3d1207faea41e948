/** The fork server of an instrumented target: the handshake with the fuzzer, then one round for
    each request: write off a killed child, fork or continue, announce the pid, wait, relay. */
module ForkServer {
  import opened Options
  import opened ForkKernel
  import opened ForkRounds

  const FS_OPT_ENABLED: bv32 := 0x80000001
  const FS_OPT_MAPSIZE: bv32 := 0x40000000
  const FS_OPT_AUTODICT: bv32 := 0x10000000
  const FS_OPT_SHDMEM_FUZZ: bv32 := 0x01000000
  const FS_OPT_NEWCMPLOG: bv32 := 0x02000000
  const FS_OPT_MAX_MAPSIZE := 0x800000

  /** Where in the loop the server is. Every kernel call lies between two of these. */
  datatype Phase = Handshake | Idle | Requested | WritingOff | Ready | Launched | Announced | Waited(status: Status)

  function Asks(w: bv32, flag: bv32): bool {
    w & (FS_OPT_ENABLED | flag) == FS_OPT_ENABLED | flag
  }

  function DictBytes(d: seq<bv8>): seq<Out> {
    seq(|d|, i requires 0 <= i < |d| => DictByte(d[i]))
  }

  /** What follows the greeting when the fuzzer asks for the dictionary. */
  function DictMessage(d: seq<bv8>): seq<Out> {
    [DictLength(|d|)] + DictBytes(d)
  }

  /** The words used up as options ask for the dictionary, and there is one. */
  predicate AsksDictionary(options: seq<bv32>, dictionary: seq<bv8>) {
    options != [] && Asks(options[0], FS_OPT_AUTODICT) && dictionary != []
  }

  /** All that a complete handshake writes. */
  function HandshakeText(hello: bv32, options: seq<bv32>, dictionary: seq<bv8>): seq<Out> {
    [Hello(hello)] + if AsksDictionary(options, dictionary) then DictMessage(dictionary) else []
  }

  /** The first word is used up as options if it asks for shared memory or for a dictionary that exists. */
  function AsOptions(taken: seq<bv32>, dictionary: seq<bv8>): (r: seq<bv32>)
    ensures |r| <= 1 && r <= taken
  {
    if taken != [] && (Asks(taken[0], FS_OPT_SHDMEM_FUZZ) || AsksDictionary(taken, dictionary)) then [taken[0]] else []
  }

  /** It is looked at only by a target that offers one of the two. */
  function UsedAsOptions(taken: seq<bv32>, sharedMemory: bool, dictionary: seq<bv8>): (r: seq<bv32>)
    ensures |r| <= 1 && r <= taken
  {
    if sharedMemory || dictionary != [] then AsOptions(taken, dictionary) else []
  }

  /** The flags of a greeting that carries the size word, if any, and offers the given features. */
  function Offer(sized: bool, size: bv32, dict: bool, shm: bool): bv32 {
    var offer := (if sized then (size << 1) | FS_OPT_MAPSIZE else 0)
                 | (if dict then FS_OPT_AUTODICT else 0)
                 | (if shm then FS_OPT_SHDMEM_FUZZ else 0);
    if offer != 0 then offer | FS_OPT_ENABLED | FS_OPT_NEWCMPLOG else 0
  }

  function SizeWord(mapSize: nat): (w: bv32)
    requires mapSize <= FS_OPT_MAX_MAPSIZE
    ensures w < 0x800000
  {
    if mapSize <= 1 then 0 else
    SmallSize(mapSize - 1);
    (mapSize - 1) as bv32
  }

  /** The flags of the greeting: what the target offers the fuzzer. */
  function Greeting(mapSize: nat, dictionary: seq<bv8>, sharedMemory: bool): bv32
  {
    if mapSize <= FS_OPT_MAX_MAPSIZE then Offer(true, SizeWord(mapSize), dictionary != [], sharedMemory)
    else Offer(false, 0, dictionary != [], sharedMemory)
  }

  lemma {:induction false} SmallSize(n: nat)
    requires n < 0x800000
    ensures (n as bv32) < 0x800000
  {}

  lemma {:induction false} OfferBits(sized: bool, size: bv32, dict: bool, shm: bool)
    requires size < 0x800000
    ensures Offer(sized, size, dict, shm) & 0x01000000 != 0 <==> shm
    ensures Offer(sized, size, dict, shm) & 0x10000000 != 0 <==> dict
    ensures Offer(sized, size, dict, shm) & 0x40000000 != 0 <==> sized
    ensures Offer(sized, size, dict, shm) == 0 <==> !sized && !dict && !shm
    ensures Offer(sized, size, dict, shm) == 0 || Offer(sized, size, dict, shm) & 0x82000001 == 0x82000001
    ensures sized ==> (Offer(sized, size, dict, shm) & 0x00fffffe) >> 1 == size
  {}

  /** What the fuzzer reads out of the greeting: the features offered, and whether there is an offer. */
  lemma {:induction false} GreetingOffers(mapSize: nat, dictionary: seq<bv8>, sharedMemory: bool, g: bv32)
    requires g == Greeting(mapSize, dictionary, sharedMemory)
    ensures g & 0x01000000 != 0 <==> sharedMemory
    ensures g & 0x10000000 != 0 <==> dictionary != []
    ensures g & 0x40000000 != 0 <==> mapSize <= 0x800000
    ensures g == 0 <==> mapSize > 0x800000 && dictionary == [] && !sharedMemory
    ensures g == 0 || g & 0x82000001 == 0x82000001
  {
    OfferBits(mapSize <= FS_OPT_MAX_MAPSIZE, if mapSize <= FS_OPT_MAX_MAPSIZE then SizeWord(mapSize) else 0,
              dictionary != [], sharedMemory);
  }

  /** The size word, one less than the map size, is read back from bits 1 to 23. */
  lemma {:induction false} GreetingSize(mapSize: nat, dictionary: seq<bv8>, sharedMemory: bool)
    requires mapSize <= 0x800000
    ensures Decoded(Greeting(mapSize, dictionary, sharedMemory)) == SizeWord(mapSize)
  {
    OfferDecodes(SizeWord(mapSize), dictionary != [], sharedMemory);
  }

  /** How the fuzzer takes the size word out of the greeting. */
  function Decoded(g: bv32): bv32 {
    (g & 0x00fffffe) >> 1
  }

  lemma {:induction false} OfferDecodes(size: bv32, dict: bool, shm: bool)
    requires size < 0x800000
    ensures Decoded(Offer(true, size, dict, shm)) == size
  {}

  lemma {:induction false} SizeWordIs(mapSize: nat)
    requires 2 <= mapSize <= 0x800000
    ensures SizeWord(mapSize) == (mapSize - 1) as bv32
  {}

  /** A word asks for a feature if it sets the bit of the feature and both enabling bits. */
  lemma AskedBits(w: bv32)
    ensures Asks(w, FS_OPT_SHDMEM_FUZZ) <==> w & 0x81000001 == 0x81000001
    ensures Asks(w, FS_OPT_AUTODICT) <==> w & 0x90000001 == 0x90000001
  {}

  /** Send `bytes` in as many writes as the pipe wants; `done` counts what went out. */
  method SendAll(k: Kernel, bytes: seq<bv8>) returns (done: nat)
    requires k.Calm()
    modifies k`future, k`procs, k`inbox, k`sent
    ensures k.Calm() && k.Kids() == old(k.Kids()) && k.Control() == old(k.Control())
    ensures |k.future| <= |old(k.future)|
    ensures done <= |bytes| && k.sent == old(k.sent) + DictBytes(bytes[..done])
  {
    done := 0;
    while done < |bytes|
      invariant k.Calm() && k.Kids() == old(k.Kids()) && k.Control() == old(k.Control())
      invariant |k.future| <= |old(k.future)|
      invariant done <= |bytes| && k.sent == old(k.sent) + DictBytes(bytes[..done])
    {
      var n := k.WriteSome(DictBytes(bytes[done..]));
      if n == 0 {
        return;
      }
      assert DictBytes(bytes[..done]) + DictBytes(bytes[done..])[..n] == DictBytes(bytes[..done + n]);
      done := done + n;
    }
  }

  /** The whole dictionary, after its length. */
  method SendWhole(k: Kernel, bytes: seq<bv8>) returns (ok: bool)
    requires k.Calm()
    modifies k`future, k`procs, k`inbox, k`sent
    ensures k.Calm() && k.Kids() == old(k.Kids()) && k.Control() == old(k.Control())
    ensures |k.future| <= |old(k.future)|
    ensures old(k.sent) <= k.sent && k.sent[|old(k.sent)|..] <= DictMessage(bytes)
    ensures ok ==> k.sent == old(k.sent) + DictMessage(bytes)
  {
    ok := k.Write(DictLength(|bytes|));
    if ok {
      var done := SendAll(k, bytes);
      ok := done == |bytes|;
      assert ok ==> bytes[..done] == bytes;
      CutMessage(old(k.sent), k.sent, bytes, done);
    }
  }

  lemma CutMessage(before: seq<Out>, after: seq<Out>, bytes: seq<bv8>, done: nat)
    requires done <= |bytes| && after == before + [DictLength(|bytes|)] + DictBytes(bytes[..done])
    ensures before <= after && after[|before|..] <= DictMessage(bytes)
  {
    assert after[|before|..] == [DictLength(|bytes|)] + DictBytes(bytes[..done]);
    assert DictBytes(bytes[..done]) == DictBytes(bytes)[..done];
  }

  lemma Prefixed(first: Out, more: seq<Out>, text: seq<Out>)
    requires [first] <= text && text[1..] <= more
    ensures text <= [first] + more
  {}

  class Server {
    const k: Kernel
    const persistent: bool
    const sharedMemory: bool
    const dictionary: seq<bv8>
    const hello: bv32

    var childStopped: bool
    var childPid: nat
    var alreadyReadFirst: bool
    var wasKilled: bv32

    ghost var phase: Phase
    ghost var rounds: seq<Round>
    /** What the handshake wrote, and the control word it used up as options, if any. */
    ghost var preamble: seq<Out>
    ghost var options: seq<bv32>

    constructor (k: Kernel, persistent: bool, sharedMemory: bool, dictionary: seq<bv8>, mapSize: nat)
      requires k.Calm() && k.procs == [] && k.taken == [] && k.sent == [] && k.overlaps == []
      ensures this.k == k && this.persistent == persistent && this.sharedMemory == sharedMemory
      ensures this.dictionary == dictionary && hello == Greeting(mapSize, dictionary, sharedMemory)
      ensures Valid() && phase == Handshake
    {
      this.k, this.persistent, this.sharedMemory := k, persistent, sharedMemory;
      this.dictionary, hello := dictionary, Greeting(mapSize, dictionary, sharedMemory);
      childStopped, childPid, alreadyReadFirst, wasKilled := false, 0, false, 0;
      phase, rounds, preamble, options := Handshake, [], [], [];
    }

    /** A server that found its child stopped after the first round, and has just read the next request. */
    constructor Midway(k: Kernel, hello: bv32, word: bv32, ghost rounds: seq<Round>)
      requires k.Calm() && k.NeverOverlapped() && k.Kids() == Family(1, true, true, if k.gentle then 1 else 0, true)
      requires Ruled(rounds, true) && Looped(rounds, k.quota) && Count(rounds, 0) == 1 && Forks(rounds) == 1
      requires rounds != [] && Last(rounds).status.Stop?
      requires k.taken == [] + Words(rounds) + [word] && k.sent == [Hello(hello)] + Replies(rounds) + []
      ensures Valid() && phase == Requested && this.k == k && childStopped && wasKilled == word
    {
      this.k, this.persistent, this.sharedMemory, this.dictionary, this.hello := k, true, false, [], hello;
      childStopped, childPid, alreadyReadFirst, wasKilled := true, 0, false, word;
      phase, this.rounds, preamble, options := Requested, rounds, [Hello(hello)], [];
    }

    /** The control word that has been read and not yet turned into a completed round. */
    ghost function Held(): seq<bv32>
      reads this
    {
      if phase == Handshake || (phase == Idle && !alreadyReadFirst) then [] else [wasKilled]
    }

    /** The pid that has been announced and whose status is still owed. */
    ghost function Owed(): seq<Out>
      reads this
    {
      if phase == Announced || phase.Waited? then [Pid(childPid)] else []
    }

    /** A child is at work on the held word, or its status is not yet relayed. */
    ghost predicate UnderWay()
      reads this
    {
      phase.Launched? || phase.Announced? || phase.Waited?
    }

    /** The recorded child was last seen stopped, and is not yet reaped. */
    ghost predicate LastSeenStopped()
      reads this, k
    {
      childPid + 1 == k.Kids().count && k.Kids().seen
    }

    ghost predicate Books()
      reads this, k
    {
      && Ruled(rounds, persistent)
      && k.taken == options + Words(rounds) + Held()
      && k.sent == preamble + Replies(rounds) + Owed()
      && k.NeverOverlapped()
    }

    ghost predicate LastStopped()
      reads this
    {
      rounds != [] && Last(rounds).status.Stop?
    }

    /** What the children are like in each phase. */
    ghost predicate Children()
      reads this, k
    {
      var f := k.Kids();
      && f.tidy && (f.count > 0 ==> childPid + 1 == f.count)
      && match phase
         case Handshake => f.count == 0 && rounds == [] && !childStopped
         case Idle => f.count == Forks(rounds) && childStopped == f.up == f.seen == LastStopped()
         case Requested => f.count == Forks(rounds) && childStopped == f.up == f.seen == LastStopped()
         case WritingOff => f.count == Forks(rounds) && !childStopped && wasKilled != 0 && f.seen && LastStopped()
         case Ready => f.count == Forks(rounds) && childStopped == f.up == f.seen == (LastStopped() && wasKilled == 0)
         case Waited(status) =>
           && f.count > 0 && childPid == NextPid(rounds, wasKilled)
           && childStopped == status.Stop? == f.up == f.seen && (childStopped ==> persistent)
         case _ => f.count > 0 && childPid == NextPid(rounds, wasKilled) && !childStopped && f.up && !f.seen
    }

    /** In a gentle run the last child has served exactly its rounds, and every child followed its loop. */
    ghost predicate Service()
      reads this, k
    {
      var f := k.Kids();
      k.gentle ==>
        && Looped(rounds, k.quota)
        && match phase
           case Handshake => true
           case Launched => f.served == Count(rounds, childPid) + 1
           case Announced => f.served == Count(rounds, childPid) + 1
           case Waited(status) => f.served == Count(rounds, childPid) + 1 && status == Served(k.quota, f.served)
           case _ => f.up ==> f.served == Count(rounds, childPid)
    }

    ghost predicate Valid()
      reads this, k
    {
      k.Calm() && Service() && Books() && Children() && (alreadyReadFirst ==> phase == Idle && rounds == [])
    }

    method SendDictionary() returns (alive: bool)
      requires Valid() && phase == Handshake
      modifies this`preamble, k`future, k`procs, k`inbox, k`sent
      ensures Valid() && k.Control() == old(k.Control())
      ensures |k.future| <= |old(k.future)|
      ensures old(preamble) <= preamble && preamble[|old(preamble)|..] <= DictMessage(dictionary)
      ensures alive ==> preamble == old(preamble) + DictMessage(dictionary)
    {
      alive := SendWhole(k, dictionary);
      preamble := k.sent;
    }

    /** Greet the fuzzer and settle the options. `mapped` is what mapping the shared test case gave.
        The word read here is used as options, or kept as the first request. */
    method Shake(mapped: bool) returns (alive: bool)
      requires Valid() && phase == Handshake && preamble == [] && options == []
      modifies this, k`future, k`procs, k`inbox, k`sent, k`taken
      ensures Valid() && k.Control() == old(k.Control())
      ensures |k.future| <= |old(k.future)|
      ensures preamble <= [Hello(hello)] + DictMessage(dictionary)
      ensures options == UsedAsOptions(k.taken, sharedMemory, dictionary)
      ensures if alive then phase == Idle && rounds == [] else phase == Handshake
      ensures alive ==> preamble == HandshakeText(hello, options, dictionary)
      ensures alive && !sharedMemory && dictionary == [] ==>
        options == [] && !alreadyReadFirst && preamble == [Hello(hello)]
      ensures alive && (sharedMemory || dictionary != []) ==>
        |k.taken| == 1 && Settled(k.taken[0], [Hello(hello)])
    {
      alive := Greet();
      if alive {
        alive := Negotiate(mapped);
      }
    }

    /** What follows the greeting: nothing, if the target offers no options. */
    method Negotiate(mapped: bool) returns (alive: bool)
      requires Valid() && phase == Handshake && preamble == [Hello(hello)] && options == [] && !alreadyReadFirst
      modifies this, k`future, k`procs, k`inbox, k`sent, k`taken
      ensures Valid() && k.Control() == old(k.Control())
      ensures |k.future| <= |old(k.future)|
      ensures preamble <= [Hello(hello)] + DictMessage(dictionary)
      ensures options == UsedAsOptions(k.taken, sharedMemory, dictionary)
      ensures if alive then phase == Idle && rounds == [] else phase == Handshake
      ensures alive ==> preamble == HandshakeText(hello, options, dictionary)
      ensures alive && !sharedMemory && dictionary == [] ==> options == [] && !alreadyReadFirst
      ensures alive && (sharedMemory || dictionary != []) ==>
        |k.taken| == 1 && Settled(k.taken[0], [Hello(hello)])
    {
      if sharedMemory || dictionary != [] {
        alive := TakeOptions(mapped);
        Prefixed(Hello(hello), DictMessage(dictionary), preamble);
      } else {
        OpenShop();
        alive := true;
      }
    }

    /** A handshake that asks nothing is over when the greeting is out. */
    ghost method OpenShop()
      requires Valid() && phase == Handshake && options == [] && !alreadyReadFirst
      modifies this`phase
      ensures Valid() && phase == Idle
    {
      phase := Idle;
    }

    method Greet() returns (alive: bool)
      requires Valid() && phase == Handshake && preamble == [] && options == []
      modifies this`preamble, k`future, k`procs, k`inbox, k`sent
      ensures Valid() && k.Control() == old(k.Control())
      ensures |k.future| <= |old(k.future)|
      ensures preamble == if alive then [Hello(hello)] else []
    {
      alive := k.Write(Hello(hello));
      preamble := k.sent;
    }

    method TakeOptions(mapped: bool) returns (alive: bool)
      requires Valid() && phase == Handshake && options == []
      modifies this, k`future, k`procs, k`inbox, k`sent, k`taken
      ensures Valid() && k.Control() == old(k.Control())
      ensures |k.future| <= |old(k.future)|
      ensures old(preamble) <= preamble && preamble[|old(preamble)|..] <= DictMessage(dictionary)
      ensures options == AsOptions(k.taken, dictionary)
      ensures if alive then phase == Idle && rounds == [] else phase == Handshake
      ensures alive ==> |k.taken| == 1 && Settled(k.taken[0], old(preamble))
      ensures alive && old(preamble) == [Hello(hello)] ==> preamble == HandshakeText(hello, options, dictionary)
    {
      var r := k.Read();
      if r.None? {
        return false;
      }
      wasKilled, options := r.value, [r.value];
      alive := Settle(r.value, mapped);
    }

    /** The word went to the options exactly when it asked for a feature that the target has. */
    ghost predicate Settled(w: bv32, hello: seq<Out>)
      reads this
    {
      var asked := Asks(w, FS_OPT_AUTODICT) && dictionary != [];
      && (alreadyReadFirst <==> !asked && !Asks(w, FS_OPT_SHDMEM_FUZZ))
      && options == (if alreadyReadFirst then [] else [w])
      && preamble == hello + (if asked then DictMessage(dictionary) else [])
    }

    method Settle(w: bv32, mapped: bool) returns (alive: bool)
      requires Valid() && phase == Handshake && wasKilled == w && options == [w] == k.taken
      modifies this`preamble, this`alreadyReadFirst, this`options, this`phase, k`future, k`procs, k`inbox, k`sent
      ensures Valid() && k.Control() == old(k.Control())
      ensures |k.future| <= |old(k.future)|
      ensures old(preamble) <= preamble && preamble[|old(preamble)|..] <= DictMessage(dictionary)
      ensures options == AsOptions([w], dictionary)
      ensures if alive then phase == Idle && Settled(w, old(preamble)) else phase == Handshake
    {
      if Asks(w, FS_OPT_SHDMEM_FUZZ) && !mapped {
        return false;
      }
      alive := true;
      if Asks(w, FS_OPT_AUTODICT) && dictionary != [] {
        alive := SendDictionary();
        if !alive {
          return;
        }
      } else if !Asks(w, FS_OPT_SHDMEM_FUZZ) {
        alreadyReadFirst, options := true, [];
      }
      phase := Idle;
    }

    method NextRequest() returns (alive: bool)
      requires Valid() && phase == Idle
      modifies this`phase, this`alreadyReadFirst, this`wasKilled, k`future, k`procs, k`inbox, k`taken
      ensures Valid() && k.Control() == old(k.Control())
      ensures !alreadyReadFirst && old(k.taken) <= k.taken
      ensures alive ==> phase == Requested
      ensures |k.future| <= |old(k.future)|
      ensures alive && !old(alreadyReadFirst) ==> |k.future| < |old(k.future)|
    {
      if alreadyReadFirst {
        alreadyReadFirst, phase := false, Requested;
        return true;
      }
      var r := k.Read();
      if r.None? {
        return false;
      }
      wasKilled, phase := r.value, Requested;
      alive := true;
    }

    /** Reap a child that stopped and was then killed. If the run ends in that wait, which takes a
        stopped child and a word that reports it killed, the flag no longer tells what was last seen. */
    method WriteOff() returns (alive: bool)
      requires Valid() && phase == Requested
      modifies this`phase, this`childStopped, k`future, k`procs, k`inbox
      ensures Valid() && k.Control() == old(k.Control())
      ensures alive ==> phase == Ready
      ensures !alive ==>
        old(childStopped) && wasKilled != 0 && phase == WritingOff && !childStopped && LastSeenStopped()
      ensures old(childStopped) && wasKilled != 0 && old(k.future) == [] ==> !alive
      ensures |k.future| <= |old(k.future)|
    {
      if childStopped && wasKilled != 0 {
        alive := Reap();
      } else {
        phase, alive := Ready, true;
      }
    }

    method Reap() returns (alive: bool)
      requires Valid() && phase == Requested && childStopped && wasKilled != 0
      modifies this`phase, this`childStopped, k`future, k`procs, k`inbox
      ensures Valid() && k.Control() == old(k.Control())
      ensures alive ==> phase == Ready && |k.future| < |old(k.future)|
      ensures !alive ==> phase == WritingOff && !childStopped && LastSeenStopped()
      ensures |k.future| <= |old(k.future)|
    {
      childStopped, phase := false, WritingOff;
      var status := k.WaitPid(childPid, false);
      alive := status.Some?;
      if alive {
        phase := Ready;
      }
    }

    method Launch() returns (alive: bool)
      requires Valid() && phase == Ready
      modifies this`phase, this`childStopped, this`childPid, k`future, k`procs, k`inbox, k`overlaps
      ensures Valid() && k.Control() == old(k.Control())
      ensures alive ==> phase == Launched
      ensures |k.future| <= |old(k.future)|
    {
      if !childStopped {
        alive := Spawn();
      } else {
        alive := Wake();
      }
    }

    method Spawn() returns (alive: bool)
      requires Valid() && phase == Ready && !childStopped
      modifies this`phase, this`childPid, k`future, k`procs, k`inbox, k`overlaps
      ensures Valid() && k.Control() == old(k.Control())
      ensures alive ==> phase == Launched
      ensures |k.future| <= |old(k.future)|
    {
      Unborn(rounds, persistent, Forks(rounds));
      var pid := k.Fork();
      alive := pid.Some?;
      if alive {
        childPid, phase := pid.value, Launched;
      }
    }

    method Wake() returns (alive: bool)
      requires Valid() && phase == Ready && childStopped
      modifies this`phase, this`childStopped, k`future, k`procs, k`inbox
      ensures Valid() && k.Control() == old(k.Control())
      ensures alive ==> phase == Launched
      ensures |k.future| <= |old(k.future)|
    {
      alive := k.Continue(childPid);
      if alive {
        childStopped, phase := false, Launched;
      }
    }

    method Announce() returns (alive: bool)
      requires Valid() && phase == Launched
      modifies this`phase, k`future, k`procs, k`inbox, k`sent
      ensures Valid() && k.Control() == old(k.Control())
      ensures alive ==> phase == Announced
      ensures |k.future| <= |old(k.future)|
    {
      alive := k.Write(Pid(childPid));
      if alive {
        phase := Announced;
      }
    }

    method AwaitChild() returns (status: Option<Status>)
      requires Valid() && phase == Announced
      modifies this`phase, this`childStopped, k`future, k`procs, k`inbox
      ensures Valid() && k.Control() == old(k.Control())
      ensures status.Some? ==> phase == Waited(status.value)
      ensures |k.future| <= |old(k.future)|
    {
      status := k.WaitPid(childPid, persistent);
      if status.None? {
        return;
      }
      if status.value.Stop? {
        childStopped := true;
      }
      phase := Waited(status.value);
    }

    /** The status has gone out, and the round is not yet on the books. */
    ghost predicate Reported(status: Status)
      reads this, k
    {
      && phase == Waited(status) && !alreadyReadFirst
      && k.Calm() && Service() && Children() && Ruled(rounds, persistent) && k.NeverOverlapped()
      && k.taken == options + Words(rounds) + [wasKilled]
      && k.sent == preamble + Replies(rounds) + [Pid(childPid)] + [Report(status)]
    }

    ghost method CloseRound(status: Status)
      requires Reported(status)
      modifies this`phase, this`rounds
      ensures Valid() && phase == Idle
    {
      var r := Round(wasKilled, childPid, status);
      Close(options, preamble, rounds, r, persistent);
      CountMore(rounds, r, k.quota);
      phase, rounds := Idle, rounds + [r];
    }

    method Relay(status: Status) returns (alive: bool)
      requires Valid() && phase == Waited(status)
      modifies this`phase, this`rounds, k`future, k`procs, k`inbox, k`sent
      ensures Valid() && k.Control() == old(k.Control())
      ensures alive ==> phase == Idle
      ensures |k.future| <= |old(k.future)|
    {
      alive := k.Write(Report(status));
      if alive {
        CloseRound(status);
      }
    }

    /** Between any two kernel calls: how many children there have been, and what the flag is worth. */
    lemma EveryMoment()
      requires Valid()
      ensures k.Kids().count == if UnderWay() then NextPid(rounds, wasKilled) + 1 else Forks(rounds)
      ensures (childStopped <==> LastSeenStopped()) <==> phase != WritingOff
    {}

    /** The server, cut off at any moment by the end of the run or by a call that fails. Whatever
        the rest of the system does, and wherever the run ends, no fork met an un-reaped child, the
        handshake and then the replies in alternation are all that was written, every control word is
        used once, and the flag tells the truth but during the wait that writes off a killed child. */
    method Serve(mapped: bool) returns (ghost greeted: bool)
      requires Valid() && phase == Handshake && preamble == [] && options == []
      modifies this, k
      ensures Valid() && k.Control() == old(k.Control())
      ensures k.NeverOverlapped()
      ensures k.sent == preamble + Replies(rounds) + Owed()
      ensures k.taken == options + Words(rounds) + Held()
      ensures options == UsedAsOptions(k.taken, sharedMemory, dictionary)
      ensures preamble <= [Hello(hello)] + DictMessage(dictionary)
      ensures if greeted then preamble == HandshakeText(hello, options, dictionary) else phase == Handshake
      ensures Ruled(rounds, persistent)
      ensures k.Kids().count == if UnderWay() then NextPid(rounds, wasKilled) + 1 else Forks(rounds)
      ensures k.gentle ==> Looped(rounds, k.quota)
      ensures (childStopped <==> LastSeenStopped()) <==> phase != WritingOff
    {
      var alive := Shake(mapped);
      greeted := alive;
      if alive {
        ServeAll();
      }
      EveryMoment();
    }

    /** The loop over the requests. It writes nothing but replies, and uses no word as options. */
    method ServeAll()
      requires Valid() && phase == Idle
      modifies this`phase, this`alreadyReadFirst, this`wasKilled, this`childStopped, this`childPid, this`rounds, k
      ensures Valid() && k.Control() == old(k.Control()) && old(k.taken) <= k.taken
    {
      var alive := true;
      while alive
        invariant Valid() && k.Control() == old(k.Control()) && old(k.taken) <= k.taken
        invariant alive ==> phase == Idle
        decreases alreadyReadFirst, |k.future|, alive
      {
        alive := ServeOne();
      }
    }

    /** What a whole service leaves behind, without the state it ended in. */
    method Session(mapped: bool) returns (ghost held: seq<bv32>, ghost owed: seq<Out>, ghost under: bool)
      requires Valid() && phase == Handshake && preamble == [] && options == []
      modifies this, k
      ensures k.Control() == old(k.Control()) && k.NeverOverlapped()
      ensures |held| <= 1 && (under ==> held != [])
      ensures |k.overlaps| == if under then NextPid(rounds, held[0]) + 1 else Forks(rounds)
      ensures k.sent == preamble + Replies(rounds) + owed
      ensures owed == [] || (under && owed == [Pid(NextPid(rounds, held[0]))])
      ensures preamble <= [Hello(hello)] + DictMessage(dictionary)
      ensures rounds != [] || held != [] ==> preamble == HandshakeText(hello, options, dictionary)
      ensures k.taken == options + Words(rounds) + held
      ensures options == UsedAsOptions(k.taken, sharedMemory, dictionary)
      ensures Ruled(rounds, persistent) && (k.gentle ==> Looped(rounds, k.quota))
    {
      ghost var greeted := Serve(mapped);
      held, owed, under := Held(), Owed(), UnderWay();
    }

    method ServeOne() returns (alive: bool)
      requires Valid() && phase == Idle
      modifies this`phase, this`alreadyReadFirst, this`wasKilled, this`childStopped, this`childPid, this`rounds, k
      ensures Valid() && k.Control() == old(k.Control())
      ensures !alreadyReadFirst && old(k.taken) <= k.taken
      ensures alive ==> phase == Idle
      ensures |k.future| <= |old(k.future)|
      ensures alive && !old(alreadyReadFirst) ==> |k.future| < |old(k.future)|
    {
      alive := NextRequest();
      if alive {
        alive := Answer();
      }
    }

    /** From the request to the status in the fuzzer's hands. */
    method Answer() returns (alive: bool)
      requires Valid() && phase == Requested
      modifies this`phase, this`childStopped, this`childPid, this`rounds, k
      ensures Valid() && k.Control() == old(k.Control()) && old(k.taken) <= k.taken
      ensures alive ==> phase == Idle
      ensures |k.future| <= |old(k.future)|
    {
      alive := Dispatch();
      if alive {
        alive := Finish();
      }
    }

    /** From the request to a child at work. */
    method Dispatch() returns (alive: bool)
      requires Valid() && phase == Requested
      modifies this`phase, this`childStopped, this`childPid, k`future, k`procs, k`inbox, k`overlaps
      ensures Valid() && k.Control() == old(k.Control())
      ensures alive ==> phase == Launched
      ensures |k.future| <= |old(k.future)|
    {
      alive := WriteOff();
      if alive {
        alive := Launch();
      }
    }

    /** From a child at work to its status in the fuzzer's hands. */
    method Finish() returns (alive: bool)
      requires Valid() && phase == Launched
      modifies this`phase, this`childStopped, this`rounds, k`future, k`procs, k`inbox, k`sent
      ensures Valid() && k.Control() == old(k.Control())
      ensures alive ==> phase == Idle
      ensures |k.future| <= |old(k.future)|
    {
      alive := Announce();
      if alive {
        var status := AwaitChild();
        alive := status.Some?;
        if alive {
          alive := Relay(status.value);
        }
      }
    }
  }

  /** A child that stopped after its first input, and was seen to. */
  method Stopped(taken: seq<bv32>, sent: seq<Out>) returns (k: Kernel)
    ensures fresh(k) && k.Calm() && k.quota == 2 && k.future == [] && k.taken == taken && k.sent == sent
    ensures k.Kids() == Family(1, true, true, if k.gentle then 1 else 0, true) && k.NeverOverlapped()
  {
    k := new Kernel([], 2);
    k.procs, k.overlaps, k.taken, k.sent := [Proc(Halted(true), true, 1)], [{}], taken, sent;
  }

  /** Such a child, and a request that reports it killed. */
  method StoppedAndKilled(word: bv32) returns (s: Server)
    requires word != 0
    ensures fresh(s) && fresh(s.k) && s.Valid() && s.phase == Requested
    ensures s.childStopped && s.wasKilled != 0 && s.k.future == []
  {
    var r := Round(0, 0, Stop);
    var hello := Greeting(1, [], false);
    var k := Stopped([r.word, word], [Hello(hello), Pid(0), Report(Stop)]);
    ghost var none: seq<Round> := [];
    FirstRound(none, r, true, 2);
    s := new Server.Midway(k, hello, word, none + [r]);
  }

  /** The flag does go wrong: here the run ends in the wait for the killed child. */
  method WrongFlag() returns (s: Server)
    ensures fresh(s) && fresh(s.k) && s.Valid() && s.phase == WritingOff
    ensures !s.childStopped && s.LastSeenStopped()
  {
    s := StoppedAndKilled(1);
    var alive := s.WriteOff();
  }

  /** A whole run in any surroundings, seen from outside: what was written and read, and for each
      fork the children that were not yet reaped. `under` tells that a child is at work on the word
      in `held`. */
  method RunServer(future: seq<Event>, quota: nat, persistent: bool, sharedMemory: bool, dictionary: seq<bv8>,
                   mapSize: nat, mapped: bool)
    returns (sent: seq<Out>, taken: seq<bv32>, overlaps: seq<set<nat>>,
             ghost rounds: seq<Round>, ghost preamble: seq<Out>, ghost owed: seq<Out>,
             ghost options: seq<bv32>, ghost held: seq<bv32>, ghost under: bool)
    requires quota >= 1
    ensures forall i :: 0 <= i < |overlaps| ==> overlaps[i] == {}
    ensures |held| <= 1 && (under ==> held != [])
    ensures |overlaps| == if under then NextPid(rounds, held[0]) + 1 else Forks(rounds)
    ensures sent == preamble + Replies(rounds) + owed
    ensures owed == [] || (under && owed == [Pid(NextPid(rounds, held[0]))])
    ensures preamble <= [Hello(Greeting(mapSize, dictionary, sharedMemory))] + DictMessage(dictionary)
    ensures rounds != [] || held != [] ==>
      preamble == HandshakeText(Greeting(mapSize, dictionary, sharedMemory), options, dictionary)
    ensures taken == options + Words(rounds) + held && taken <= WordsIn(future)
    ensures options == UsedAsOptions(taken, sharedMemory, dictionary)
    ensures Ruled(rounds, persistent)
    ensures (forall i :: 0 <= i < |future| ==> Untouched(future[i])) ==> Looped(rounds, quota)
  {
    var k := new Kernel(future, quota);
    var s := new Server(k, persistent, sharedMemory, dictionary, mapSize);
    held, owed, under := s.Session(mapped);
    sent, taken, overlaps := k.sent, k.taken, k.overlaps;
    rounds, preamble, options := s.rounds, s.preamble, s.options;
    IsPrefix(taken, k.inbox, WordsIn(k.future), WordsIn(future));
  }

  lemma IsPrefix(a: seq<bv32>, b: seq<bv32>, c: seq<bv32>, all: seq<bv32>)
    requires a + b + c == all
    ensures a <= all
  {}
}
