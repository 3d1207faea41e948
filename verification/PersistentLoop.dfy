/** The persistent loop inside a child, and what it and the fork server do together. */
module PersistentLoop {
  import opened ForkKernel
  import opened ForkRounds
  import opened ForkServer

  const WRAP := 0x1_0000_0000
  type Word32 = x: int | 0 <= x < WRAP

  /** How many inputs a child runs before its loop ends; a count of 0 wraps round. */
  function Quota(maxCnt: Word32, persistent: bool): (r: int)
    ensures r >= 1
  {
    if !persistent then 1 else if maxCnt == 0 then WRAP else maxCnt
  }

  /** The two static variables of the loop. */
  class Loop {
    var firstPass: bool
    var cycleCnt: Word32

    constructor ()
      ensures firstPass && cycleCnt == 0
    {
      firstPass, cycleCnt := true, 0;
    }

    /** One call. `again` is the returned value; `stopped` says that the call raised SIGSTOP on the way. */
    method Call(maxCnt: Word32, persistent: bool) returns (again: bool, stopped: bool)
      modifies this
      ensures !firstPass
      ensures old(firstPass) ==> again && !stopped && cycleCnt == maxCnt
      ensures !old(firstPass) && !persistent ==> !again && !stopped && cycleCnt == old(cycleCnt)
      ensures !old(firstPass) && persistent ==>
        && cycleCnt == (old(cycleCnt) - 1) % WRAP
        && again == stopped == (cycleCnt != 0)
    {
      stopped := false;
      if firstPass {
        cycleCnt, firstPass := maxCnt, false;
        return true, false;
      }
      if persistent {
        cycleCnt := (cycleCnt - 1) % WRAP;
        if cycleCnt != 0 {
          return true, true;
        }
      }
      again := false;
    }
  }

  /** A child whose main loop is the persistent loop. It runs exactly its quota of inputs, and after
      each the server sees it stop, except after the last, where it leaves the loop and exits. */
  method Child(maxCnt: Word32, persistent: bool) returns (seen: seq<Status>)
    ensures |seen| == Quota(maxCnt, persistent)
    ensures forall i :: 0 <= i < |seen| ==> seen[i] == Served(Quota(maxCnt, persistent), i + 1)
  {
    var loop := new Loop();
    seen := [];
    var again, stopped := loop.Call(maxCnt, persistent);
    while again
      invariant !loop.firstPass && |seen| <= Quota(maxCnt, persistent)
      invariant again <==> |seen| < Quota(maxCnt, persistent)
      invariant persistent ==> loop.cycleCnt == (maxCnt - |seen|) % WRAP
      invariant forall i :: 0 <= i < |seen| ==> seen[i] == Served(Quota(maxCnt, persistent), i + 1)
      decreases Quota(maxCnt, persistent) - |seen|
    {
      again, stopped := loop.Call(maxCnt, persistent);
      seen := seen + [if stopped then Stop else Exit];
    }
  }

  /** How often the server saw a child stop. */
  function Halts(rounds: seq<Round>, pid: nat): nat
    decreases |rounds|
  {
    if rounds == [] then 0
    else Halts(Init(rounds), pid) + if Last(rounds).pid == pid && Last(rounds).status.Stop? then 1 else 0
  }

  /** No child was reported killed. */
  predicate NoKills(rounds: seq<Round>)
    decreases |rounds|
  {
    rounds != [] ==> NoKills(Init(rounds)) && Last(rounds).word == 0
  }

  /** The last child is on its way to the quota; it stops each time it gets there short of it. */
  lemma {:induction false} LastShare(rounds: seq<Round>, q: nat, persistent: bool)
    requires q >= 1 && Ruled(rounds, persistent) && Looped(rounds, q) && NoKills(rounds) && rounds != []
    ensures 1 <= Count(rounds, Last(rounds).pid) <= q
    ensures forall i: nat :: i > Last(rounds).pid ==> Count(rounds, i) == 0 && Halts(rounds, i) == 0
    decreases |rounds|
  {
    var init := Init(rounds);
    if init != [] {
      LastShare(init, q, persistent);
    }
  }

  /** Every child before the last has served exactly its quota and stopped once less. */
  lemma {:induction false} Share(rounds: seq<Round>, q: nat, persistent: bool, pid: nat)
    requires q >= 1 && Ruled(rounds, persistent) && Looped(rounds, q) && NoKills(rounds) && rounds != []
    requires pid <= Last(rounds).pid
    ensures pid < Last(rounds).pid ==>
      && Count(rounds, pid) == q
      && Halts(rounds, pid) == q - 1
    ensures pid == Last(rounds).pid ==>
      Halts(rounds, pid) == Count(rounds, pid) - (if Count(rounds, pid) == q then 1 else 0)
    decreases |rounds|
  {
    var init := Init(rounds);
    LastShare(rounds, q, persistent);
    if init != [] {
      LastShare(init, q, persistent);
      if pid <= Last(init).pid {
        Share(init, q, persistent, pid);
      }
    }
  }

  lemma {:induction false} Tally(rounds: seq<Round>, q: nat, persistent: bool)
    requires q >= 1 && Ruled(rounds, persistent) && Looped(rounds, q) && NoKills(rounds) && rounds != []
    ensures |rounds| == Last(rounds).pid * q + Count(rounds, Last(rounds).pid)
    decreases |rounds|
  {
    var init := Init(rounds);
    if init != [] {
      LastShare(init, q, persistent);
      Tally(init, q, persistent);
      NextMultiple(Last(init).pid, q);
    }
  }

  lemma NextMultiple(p: nat, q: int)
    ensures (p + 1) * q == p * q + q
  {}

  /** Together: after n requests the server has forked ceil(n / quota) times. */
  lemma ForksPerRequest(rounds: seq<Round>, q: nat, persistent: bool)
    requires q >= 1 && Ruled(rounds, persistent) && Looped(rounds, q) && NoKills(rounds)
    ensures Forks(rounds) == (|rounds| + q - 1) / q
  {
    if rounds == [] {
      Quotient(0, q - 1, q);
    } else {
      LastShare(rounds, q, persistent);
      Tally(rounds, q, persistent);
      var p := Last(rounds).pid;
      NextMultiple(p, q);
      Quotient(p + 1, Count(rounds, p) - 1, q);
    }
  }

  lemma Quotient(p: nat, r: nat, q: int)
    requires r < q
    ensures (p * q + r) / q == p
  {
    var d := (p * q + r) / q;
    var s := (p * q + r) % q;
    assert p * q + r == d * q + s;
    Apart(p, d, q);
  }

  lemma Apart(p: int, d: int, q: int)
    requires q > 0
    ensures d > p ==> d * q >= p * q + q
    ensures d < p ==> p * q >= d * q + q
  {
    if d > p {
      Grow(p, d, q);
    } else if d < p {
      Grow(d, p, q);
    }
  }

  lemma {:induction false} Grow(p: int, d: int, q: int)
    requires q > 0 && p < d
    ensures d * q >= p * q + q
    decreases d - p
  {
    assert d * q == (d - 1) * q + q;
    if p < d - 1 {
      Grow(p, d - 1, q);
    }
  }

  lemma {:induction false} ZeroWords(rounds: seq<Round>)
    requires forall i :: 0 <= i < |Words(rounds)| ==> Words(rounds)[i] == 0
    ensures NoKills(rounds)
    decreases |rounds|
  {
    if rounds != [] {
      var init := Words(Init(rounds));
      assert Words(rounds) == init + [Last(rounds).word];
      assert forall i :: 0 <= i < |init| ==> init[i] == Words(rounds)[i];
      assert Words(rounds)[|init|] == Last(rounds).word;
      ZeroWords(Init(rounds));
    }
  }

  lemma ZeroInside(all: seq<bv32>, a: seq<bv32>, b: seq<bv32>, c: seq<bv32>, n: nat)
    requires a + b + c <= all && (b + c != [] ==> n <= |a|)
    requires forall i :: n <= i < |all| ==> all[i] == 0
    ensures forall i :: 0 <= i < |b| ==> b[i] == 0
    ensures forall i :: 0 <= i < |c| ==> c[i] == 0
  {
    var whole := a + b + c;
    assert forall i :: 0 <= i < |whole| ==> whole[i] == all[i];
    forall i | 0 <= i < |b|
      ensures b[i] == 0
    {
      assert b[i] == whole[|a| + i];
    }
    forall i | 0 <= i < |c|
      ensures c[i] == 0
    {
      assert c[i] == whole[|a| + |b| + i];
    }
  }

  /** The round under way, closed as the loop of its child would close it. */
  lemma OneUnderWay(rounds: seq<Round>, q: nat, persistent: bool) returns (all: seq<Round>)
    requires q >= 1 && Ruled(rounds, persistent) && Looped(rounds, q) && NoKills(rounds) && (q > 1 ==> persistent)
    ensures |all| == |rounds| + 1 && Forks(all) == NextPid(rounds, 0) + 1
    ensures Ruled(all, persistent) && Looped(all, q) && NoKills(all)
  {
    var pid := NextPid(rounds, 0);
    var r := Round(0, pid, Served(q, Count(rounds, pid) + 1));
    all := rounds + [r];
    OneMore(rounds, r, persistent);
    CountMore(rounds, r, q);
  }

  /** Server and children together, in any interleaving in which nobody touches a child and no
      request reports a kill: the statuses are those of the persistent loop, and for n requests that
      got a child, the one under way included, the server has forked exactly ceil(n / quota) times. */
  method RunTogether(future: seq<Event>, maxCnt: Word32, persistent: bool, sharedMemory: bool, dictionary: seq<bv8>,
                     mapSize: nat, mapped: bool)
    returns (sent: seq<Out>, forks: nat, ghost rounds: seq<Round>, ghost preamble: seq<Out>, ghost owed: seq<Out>,
             ghost under: bool)
    requires forall i :: 0 <= i < |future| ==> Untouched(future[i])
    requires
      var w := WordsIn(future);
      forall i :: |UsedAsOptions(w, sharedMemory, dictionary)| <= i < |w| ==> w[i] == 0
    ensures sent == preamble + Replies(rounds) + owed
    ensures owed == [] || (under && owed == [Pid(NextPid(rounds, 0))])
    ensures preamble <= [Hello(Greeting(mapSize, dictionary, sharedMemory))] + DictMessage(dictionary)
    ensures Ruled(rounds, persistent) && Looped(rounds, Quota(maxCnt, persistent)) && NoKills(rounds)
    ensures var q := Quota(maxCnt, persistent);
            forks == (|rounds| + (if under then 1 else 0) + q - 1) / q
  {
    var q := Quota(maxCnt, persistent);
    var taken, overlaps;
    ghost var options, held;
    sent, taken, overlaps, rounds, preamble, owed, options, held, under :=
      RunServer(future, q, persistent, sharedMemory, dictionary, mapSize, mapped);
    ZeroInside(WordsIn(future), options, Words(rounds), held,
               |UsedAsOptions(WordsIn(future), sharedMemory, dictionary)|);
    ZeroWords(rounds);
    forks := |overlaps|;
    ghost var all := rounds;
    if under {
      all := OneUnderWay(rounds, q, persistent);
    }
    ForksPerRequest(all, q, persistent);
  }
}
