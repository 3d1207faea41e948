/** The rounds of the fork server: what they have to be like, and what they look like from outside. */
module ForkRounds {
  import opened ForkKernel

  /** A completed request: its control word, the child that served it and what became of the child. */
  datatype Round = Round(word: bv32, pid: nat, status: Status)

  function Last(rounds: seq<Round>): Round
    requires rounds != []
  {
    rounds[|rounds| - 1]
  }

  function Init(rounds: seq<Round>): seq<Round>
    requires rounds != []
  {
    rounds[..|rounds| - 1]
  }

  /** How many children these rounds needed, when pids count up from 0. */
  function Forks(rounds: seq<Round>): nat {
    if rounds == [] then 0 else Last(rounds).pid + 1
  }

  /** The child a request goes to: the stopped one again, unless it is reported killed; else a new one. */
  function NextPid(rounds: seq<Round>, word: bv32): nat {
    if rounds != [] && Last(rounds).status.Stop? && word == 0 then Last(rounds).pid else Forks(rounds)
  }

  predicate Ruled(rounds: seq<Round>, persistent: bool)
    decreases |rounds|
  {
    rounds != [] ==>
      && Ruled(Init(rounds), persistent)
      && Last(rounds).pid == NextPid(Init(rounds), Last(rounds).word)
      && (Last(rounds).status.Stop? ==> persistent)
  }

  /** What the fuzzer reads for these rounds: a pid and a status in strict alternation. */
  function Replies(rounds: seq<Round>): seq<Out>
    decreases |rounds|
  {
    if rounds == [] then [] else Replies(Init(rounds)) + [Pid(Last(rounds).pid), Report(Last(rounds).status)]
  }

  function Words(rounds: seq<Round>): seq<bv32>
    decreases |rounds|
  {
    if rounds == [] then [] else Words(Init(rounds)) + [Last(rounds).word]
  }

  lemma OneMore(rounds: seq<Round>, r: Round, persistent: bool)
    ensures Init(rounds + [r]) == rounds && Last(rounds + [r]) == r
    ensures Ruled(rounds, persistent) && r.pid == NextPid(rounds, r.word) && (r.status.Stop? ==> persistent) ==>
              Ruled(rounds + [r], persistent)
    ensures Replies(rounds + [r]) == Replies(rounds) + [Pid(r.pid), Report(r.status)]
    ensures Words(rounds + [r]) == Words(rounds) + [r.word]
  {
    assert Init(rounds + [r]) == rounds;
  }

  /** Closing a round moves the held word and the owed pid into the rounds. */
  lemma Close(options: seq<bv32>, preamble: seq<Out>, rounds: seq<Round>, r: Round, persistent: bool)
    requires Ruled(rounds, persistent) && r.pid == NextPid(rounds, r.word) && (r.status.Stop? ==> persistent)
    ensures Ruled(rounds + [r], persistent) && Last(rounds + [r]) == r
    ensures options + Words(rounds) + [r.word] == options + Words(rounds + [r]) + []
    ensures preamble + Replies(rounds) + [Pid(r.pid)] + [Report(r.status)] == preamble + Replies(rounds + [r]) + []
  {
    OneMore(rounds, r, persistent);
    assert [Pid(r.pid)] + [Report(r.status)] == [Pid(r.pid), Report(r.status)];
  }

  /** How many of the rounds a child served. */
  function Count(rounds: seq<Round>, pid: nat): (n: nat)
    ensures n <= |rounds|
    decreases |rounds|
  {
    if rounds == [] then 0 else Count(Init(rounds), pid) + if Last(rounds).pid == pid then 1 else 0
  }

  /** What the server sees after the n-th input of a child whose loop runs `quota` inputs. */
  function Served(quota: nat, n: nat): Status {
    if n < quota then Stop else Exit
  }

  /** Every child behaved as its persistent loop makes it. */
  predicate Looped(rounds: seq<Round>, quota: nat)
    decreases |rounds|
  {
    rounds != [] ==>
      && Looped(Init(rounds), quota)
      && Last(rounds).status == Served(quota, Count(rounds, Last(rounds).pid))
  }

  /** A child that has not been forked has served nothing. */
  lemma {:induction false} Unborn(rounds: seq<Round>, persistent: bool, pid: nat)
    requires Ruled(rounds, persistent) && pid >= Forks(rounds)
    ensures Count(rounds, pid) == 0
    decreases |rounds|
  {
    if rounds != [] {
      Unborn(Init(rounds), persistent, pid);
    }
  }

  lemma CountMore(rounds: seq<Round>, r: Round, quota: nat)
    ensures Count(rounds + [r], r.pid) == Count(rounds, r.pid) + 1
    ensures Looped(rounds, quota) && r.status == Served(quota, Count(rounds, r.pid) + 1) ==> Looped(rounds + [r], quota)
  {
    assert Init(rounds + [r]) == rounds;
  }

  lemma {:induction false} FirstRound(none: seq<Round>, r: Round, persistent: bool, quota: nat)
    requires none == [] && r.pid == 0 && (r.status.Stop? ==> persistent) && r.status == Served(quota, 1)
    ensures Ruled(none + [r], persistent) && Looped(none + [r], quota)
    ensures Count(none + [r], 0) == 1 && Last(none + [r]) == r
    ensures Replies(none + [r]) == [Pid(0), Report(r.status)] && Words(none + [r]) == [r.word]
  {
    OneMore(none, r, persistent);
    CountMore(none, r, quota);
    assert Replies(none) == [] && Words(none) == [];
  }
}
