/** The campaign scheduler: a greedy cover of the executed targets by the recorded commands. */
module Scheduler {

  type Target = string

  datatype Command = Command(targets: set<Target>, text: string)

  /** One round: the command chosen, the targets it was to fuzz, its time and its outcome. */
  datatype Campaign = Campaign(cmd: Command, targets: set<Target>, quota: nat, ok: bool)

  /** The commands not yet tried and the targets fuzzed so far. */
  datatype State = State(cs: seq<Command>, fuzzed: set<Target>)

  const DAY := 24 * 60 * 60

  /** The share of a day, rounded up. */
  function Quota(gain: nat, executed: nat): nat
    requires executed > 0
  {
    (DAY * gain + executed - 1) / executed
  }

  function Gain(c: Command, fuzzed: set<Target>): nat {
    |c.targets - fuzzed|
  }

  /** The first command whose gain no other command exceeds, if any gains at all. */
  predicate IsBest(cs: seq<Command>, fuzzed: set<Target>, k: int) {
    && 0 <= k < |cs| && Gain(cs[k], fuzzed) > 0
    && (forall j :: 0 <= j < |cs| ==> Gain(cs[j], fuzzed) <= Gain(cs[k], fuzzed))
    && (forall j :: 0 <= j < k ==> Gain(cs[j], fuzzed) < Gain(cs[k], fuzzed))
  }

  predicate NoneGains(cs: seq<Command>, fuzzed: set<Target>) {
    forall j :: 0 <= j < |cs| ==> Gain(cs[j], fuzzed) == 0
  }

  function Without(cs: seq<Command>, k: nat): seq<Command>
    requires k < |cs|
  {
    cs[..k] + cs[k + 1..]
  }

  function Last(log: seq<Campaign>): Campaign
    requires log != []
  {
    log[|log| - 1]
  }

  function Init(log: seq<Campaign>): seq<Campaign>
    requires log != []
  {
    log[..|log| - 1]
  }

  /** The targets fuzzed by the successful campaigns of a log. */
  function Fuzzed(log: seq<Campaign>): set<Target>
    decreases |log|
  {
    if log == [] then {} else Fuzzed(Init(log)) + if Last(log).ok then Last(log).targets else {}
  }

  /** A log of greedy rounds that takes the recorded commands `all` down to the commands `cs`. */
  ghost predicate Greedy(all: seq<Command>, executed: set<Target>, log: seq<Campaign>, cs: seq<Command>)
    decreases |log|
  {
    if log == [] then cs == all
    else
      exists before, k :: Round(all, executed, log, cs, before, k)
  }

  ghost predicate Round(all: seq<Command>, executed: set<Target>, log: seq<Campaign>, cs: seq<Command>,
                        before: seq<Command>, k: nat)
    requires log != []
    decreases |log|, 0
  {
    var fuzzed := Fuzzed(Init(log));
    && |log| > 0 && Greedy(all, executed, Init(log), before)
    && |fuzzed| < |executed|
    && IsBest(before, fuzzed, k) && cs == Without(before, k)
    && Last(log).cmd == before[k] && Last(log).targets == before[k].targets - fuzzed
    && Last(log).quota == Quota(Gain(before[k], fuzzed), |executed|)
  }

  /** The search of one round. */
  method Search(cs: seq<Command>, fuzzed: set<Target>) returns (best: int, targets: set<Target>)
    ensures best >= 0 ==> IsBest(cs, fuzzed, best) && targets == cs[best].targets - fuzzed
    ensures best < 0 ==> targets == {} && NoneGains(cs, fuzzed)
  {
    best, targets := -1, {};
    for i := 0 to |cs|
      invariant best < i
      invariant best < 0 ==> targets == {} && forall j :: 0 <= j < i ==> Gain(cs[j], fuzzed) == 0
      invariant best >= 0 ==> targets == cs[best].targets - fuzzed && IsBest(cs[..i], fuzzed, best)
    {
      var unfuzzed := cs[i].targets - fuzzed;
      if |unfuzzed| > |targets| {
        best, targets := i, unfuzzed;
      }
    }
    assert cs[..|cs|] == cs;
  }

  /** The removal by value finds the very command that was chosen. */
  method RemoveFirst(cs: seq<Command>, c: Command, ghost fuzzed: set<Target>, ghost best: int)
    returns (rest: seq<Command>)
    requires IsBest(cs, fuzzed, best) && cs[best] == c
    ensures rest == Without(cs, best)
  {
    var i := 0;
    while cs[i] != c
      invariant 0 <= i <= best
      decreases |cs| - i
    {
      i := i + 1;
    }
    rest := cs[..i] + cs[i + 1..];
  }

  lemma {:induction false} Extend(all: seq<Command>, executed: set<Target>, log: seq<Campaign>, cs: seq<Command>,
                                  k: nat, c: Campaign)
    requires Greedy(all, executed, log, cs) && |Fuzzed(log)| < |executed| && IsBest(cs, Fuzzed(log), k)
    requires c.cmd == cs[k] && c.targets == cs[k].targets - Fuzzed(log)
    requires c.quota == Quota(Gain(cs[k], Fuzzed(log)), |executed|)
    ensures Greedy(all, executed, log + [c], Without(cs, k))
    ensures Fuzzed(log + [c]) == Fuzzed(log) + if c.ok then c.targets else {}
  {
    assert Init(log + [c]) == log;
    assert Round(all, executed, log + [c], Without(cs, k), cs, k);
  }

  /** The campaigns of a log ended as `outcome` says. */
  predicate Follows(log: seq<Campaign>, outcome: nat -> bool)
    decreases |log|
  {
    log != [] ==> Follows(Init(log), outcome) && Last(log).ok == outcome(|log| - 1)
  }

  lemma {:induction false} OneLonger(log: seq<Campaign>, c: Campaign, outcome: nat -> bool)
    requires Follows(log, outcome) && c.ok == outcome(|log|)
    ensures Follows(log + [c], outcome)
  {
    assert Init(log + [c]) == log;
  }

  /** One round up to the campaign itself, whose outcome is `ok`. */
  method Launch(cs: seq<Command>, fuzzed: set<Target>, executed: nat, ok: bool)
    returns (found: bool, c: Campaign, rest: seq<Command>, ghost best: int)
    requires executed > 0
    ensures !found ==> rest == cs && NoneGains(cs, fuzzed)
    ensures found ==>
      && IsBest(cs, fuzzed, best) && rest == Without(cs, best)
      && c == Campaign(cs[best], cs[best].targets - fuzzed, Quota(Gain(cs[best], fuzzed), executed), ok)
  {
    var k, targets := Search(cs, fuzzed);
    found, c, rest, best := k >= 0, Campaign(Command({}, ""), {}, 0, ok), cs, k;
    if |targets| > 0 {
      var cmd := cs[k];
      rest := RemoveFirst(cs, cmd, fuzzed, k);
      c := Campaign(cmd, cmd.targets - fuzzed, Quota(|targets|, executed), ok);
    }
  }

  /** The loop, for any outcomes of the campaigns. */
  method Schedule(all: seq<Command>, executed: set<Target>, outcome: nat -> bool)
    returns (log: seq<Campaign>, rest: seq<Command>)
    ensures Greedy(all, executed, log, rest) && Stuck(executed, log, rest)
    ensures Follows(log, outcome) && |log| <= |all|
  {
    rest, log := all, [];
    var fuzzed := {};
    while |fuzzed| < |executed|
      invariant Greedy(all, executed, log, rest) && fuzzed == Fuzzed(log)
      invariant Follows(log, outcome) && |log| + |rest| == |all|
      decreases |rest|
    {
      var found, c, left, best := Launch(rest, fuzzed, |executed|, outcome(|log|));
      if !found {
        break;
      }
      Extend(all, executed, log, rest, best, c);
      OneLonger(log, c, outcome);
      rest, log := left, log + [c];
      if c.ok {
        fuzzed := fuzzed + c.targets;
      }
    }
  }

  function Commands(log: seq<Campaign>): multiset<Command>
    decreases |log|
  {
    if log == [] then multiset{} else Commands(Init(log)) + multiset{Last(log).cmd}
  }

  /** The gains of the successful campaigns, together. */
  function Gains(log: seq<Campaign>): nat
    decreases |log|
  {
    if log == [] then 0 else Gains(Init(log)) + if Last(log).ok then |Last(log).targets| else 0
  }

  lemma WithoutSplits(cs: seq<Command>, k: nat)
    requires k < |cs|
    ensures multiset(cs) == multiset(Without(cs, k)) + multiset{cs[k]}
  {
    assert cs == cs[..k] + [cs[k]] + cs[k + 1..];
  }

  predicate AllWithin(cs: seq<Command>, executed: set<Target>) {
    forall j :: 0 <= j < |cs| ==> cs[j].targets <= executed
  }

  /** Every command is either still there or in the log; what is fuzzed was executed, and no
      target was fuzzed twice. */
  lemma {:induction false} Conservation(all: seq<Command>, executed: set<Target>, log: seq<Campaign>, cs: seq<Command>)
    requires Greedy(all, executed, log, cs) && AllWithin(all, executed)
    ensures multiset(all) == multiset(cs) + Commands(log)
    ensures AllWithin(cs, executed) && Fuzzed(log) <= executed
    ensures |Fuzzed(log)| == Gains(log)
    decreases |log|
  {
    if log != [] {
      var before, k :| Round(all, executed, log, cs, before, k);
      Conservation(all, executed, Init(log), before);
      WithoutSplits(before, k);
    }
  }

  /** Successful campaigns fuzz disjoint sets of targets. */
  lemma {:induction false} Disjoint(all: seq<Command>, executed: set<Target>, log: seq<Campaign>, cs: seq<Command>,
                                    i: nat, j: nat)
    requires Greedy(all, executed, log, cs) && i < j < |log| && log[i].ok
    ensures log[i].targets !! log[j].targets
    decreases |log|
  {
    var before, k :| Round(all, executed, log, cs, before, k);
    if j == |log| - 1 {
      FuzzedIncludes(Init(log), i);
    } else {
      Disjoint(all, executed, Init(log), before, i, j);
    }
  }

  lemma {:induction false} FuzzedIncludes(log: seq<Campaign>, i: nat)
    requires i < |log| && log[i].ok
    ensures log[i].targets <= Fuzzed(log)
    decreases |log|
  {
    if i < |log| - 1 {
      FuzzedIncludes(Init(log), i);
    }
  }

  /** No command left gains more than the last campaign did. */
  lemma NoBetterLeft(all: seq<Command>, executed: set<Target>, log: seq<Campaign>, cs: seq<Command>, j: nat)
    requires Greedy(all, executed, log, cs) && log != [] && j < |cs|
    ensures Gain(cs[j], Fuzzed(log)) <= |Last(log).targets|
  {
    var before, k :| Round(all, executed, log, cs, before, k);
    var was := if j < k then j else j + 1;
    assert cs[j] == before[was];
    Shrinks(cs[j], Fuzzed(Init(log)), Fuzzed(log));
  }

  lemma Shrinks(c: Command, a: set<Target>, b: set<Target>)
    requires a <= b
    ensures Gain(c, b) <= Gain(c, a)
  {
    assert c.targets - a == (c.targets - b) + (c.targets * (b - a));
  }

  /** The gains never increase along a run. */
  lemma {:induction false} GainsNeverIncrease(all: seq<Command>, executed: set<Target>, log: seq<Campaign>,
                                              cs: seq<Command>, i: nat)
    requires Greedy(all, executed, log, cs) && i + 1 < |log|
    ensures |log[i].targets| >= |log[i + 1].targets|
    decreases |log|
  {
    var before, k :| Round(all, executed, log, cs, before, k);
    if i + 1 == |log| - 1 {
      NoBetterLeft(all, executed, Init(log), before, k);
    } else {
      GainsNeverIncrease(all, executed, Init(log), before, i);
    }
  }

  /** The quotas of the successful campaigns, and how many there were. */
  function Quotas(log: seq<Campaign>): nat
    decreases |log|
  {
    if log == [] then 0 else Quotas(Init(log)) + if Last(log).ok then Last(log).quota else 0
  }

  function Successes(log: seq<Campaign>): nat
    decreases |log|
  {
    if log == [] then 0 else Successes(Init(log)) + if Last(log).ok then 1 else 0
  }

  lemma RoundedUp(gain: nat, n: nat)
    requires n > 0
    ensures n * Quota(gain, n) <= DAY * gain + n - 1
  {
    var x := DAY * gain + n - 1;
    assert x == n * (x / n) + x % n;
  }

  /** The quota is the share of a day that the gain is of all targets, rounded up to whole seconds. */
  lemma QuotaRounds(gain: nat, n: nat, q: nat)
    requires n > 0
    ensures q == Quota(gain, n) <==> 86400 * gain <= n * q < 86400 * gain + n
  {
    var x := DAY * gain + n - 1;
    assert x == n * (x / n) + x % n;
    if 86400 * gain <= n * q < 86400 * gain + n {
      if q < x / n {
        Monotone(n, q + 1, x / n);
      } else if q > x / n {
        Monotone(n, x / n + 1, q);
      }
    }
  }

  lemma {:induction false} QuotasBounded(all: seq<Command>, executed: set<Target>, log: seq<Campaign>, cs: seq<Command>)
    requires Greedy(all, executed, log, cs)
    ensures |executed| * Quotas(log) <= DAY * Gains(log) + (|executed| - 1) * Successes(log)
    decreases |log|
  {
    if log != [] {
      var before, k :| Round(all, executed, log, cs, before, k);
      QuotasBounded(all, executed, Init(log), before);
      if Last(log).ok {
        RoundedUp(|Last(log).targets|, |executed|);
        Distribute(|executed|, Quotas(Init(log)), Last(log).quota);
        Distribute(|executed| - 1, Successes(Init(log)), 1);
      }
    }
  }

  lemma Distribute(n: int, a: int, b: int)
    ensures n * (a + b) == n * a + n * b
  {}

  lemma {:induction false} NoSuccessNoQuota(log: seq<Campaign>)
    requires Successes(log) == 0
    ensures Quotas(log) == 0
    decreases |log|
  {
    if log != [] {
      NoSuccessNoQuota(Init(log));
    }
  }

  /** The successful campaigns together take less than a day plus a second each. */
  lemma QuotasFitADay(all: seq<Command>, executed: set<Target>, log: seq<Campaign>, cs: seq<Command>)
    requires Greedy(all, executed, log, cs) && AllWithin(all, executed)
    ensures Quotas(log) < DAY + Successes(log)
  {
    if Successes(log) == 0 {
      NoSuccessNoQuota(log);
    } else {
      Conservation(all, executed, log, cs);
      QuotasBounded(all, executed, log, cs);
      SomethingExecuted(all, executed, log, cs);
      SubsetSize(Fuzzed(log), executed);
      Divide(|executed|, Quotas(log), Gains(log), Successes(log));
    }
  }

  lemma SomethingExecuted(all: seq<Command>, executed: set<Target>, log: seq<Campaign>, cs: seq<Command>)
    requires Greedy(all, executed, log, cs) && log != []
    ensures |executed| > 0
  {
    var before, k :| Round(all, executed, log, cs, before, k);
  }

  lemma Divide(n: nat, q: nat, g: nat, s: nat)
    requires n > 0 && s > 0 && g <= n && n * q <= DAY * g + (n - 1) * s
    ensures q < DAY + s
  {
    Distribute(s, n, -1);
    Distribute(n, DAY, s);
    if q >= DAY + s {
      Monotone(n, DAY + s, q);
    }
  }

  lemma Monotone(n: nat, a: int, b: int)
    requires a <= b
    ensures n * a <= n * b
  {}

  lemma SubsetSize(a: set<Target>, b: set<Target>)
    requires a <= b
    ensures |a| <= |b|
    ensures |a| >= |b| ==> a == b
  {
    assert b == a + (b - a);
  }

  /** What has to hold when the loop stops. */
  predicate Stuck(executed: set<Target>, log: seq<Campaign>, cs: seq<Command>) {
    |Fuzzed(log)| >= |executed| || NoneGains(cs, Fuzzed(log))
  }

  lemma NotLeft(executed: set<Target>, log: seq<Campaign>, cs: seq<Command>, t: Target, c: Command)
    requires Stuck(executed, log, cs) && Fuzzed(log) <= executed
    requires t in executed && t !in Fuzzed(log) && t in c.targets
    ensures c !in cs
  {
    SubsetSize(Fuzzed(log), executed);
    assert t in c.targets - Fuzzed(log);
    assert Gain(c, Fuzzed(log)) > 0;
  }

  /** A target stays unfuzzed only if every recorded command that runs it was tried and failed. */
  lemma UnfuzzedMeansAllFailed(all: seq<Command>, executed: set<Target>, log: seq<Campaign>, cs: seq<Command>,
                               t: Target, c: Command)
    requires Greedy(all, executed, log, cs) && AllWithin(all, executed) && Stuck(executed, log, cs)
    requires t in executed && t !in Fuzzed(log) && c in all && t in c.targets
    ensures exists i :: 0 <= i < |log| && log[i].cmd == c
    ensures forall i :: 0 <= i < |log| && log[i].cmd == c ==> !log[i].ok
  {
    assert c in Commands(log) by {
      Conservation(all, executed, log, cs);
      NotLeft(executed, log, cs, t, c);
      assert c in multiset(all) && c !in multiset(cs);
    }
    WasTried(log, c);
    forall i | 0 <= i < |log| && log[i].cmd == c
      ensures !log[i].ok
    {
      if log[i].ok {
        TargetsOf(all, executed, log, cs, i, t);
      }
    }
  }

  lemma {:induction false} WasTried(log: seq<Campaign>, c: Command)
    requires c in Commands(log)
    ensures exists i :: 0 <= i < |log| && log[i].cmd == c
    decreases |log|
  {
    if Last(log).cmd != c {
      WasTried(Init(log), c);
      var i :| 0 <= i < |Init(log)| && Init(log)[i].cmd == c;
      assert log[i].cmd == c;
    }
  }

  /** A successful campaign leaves no target of its command unfuzzed. */
  lemma {:induction false} TargetsOf(all: seq<Command>, executed: set<Target>, log: seq<Campaign>, cs: seq<Command>,
                                     i: nat, t: Target)
    requires Greedy(all, executed, log, cs) && i < |log| && t in log[i].cmd.targets && log[i].ok
    ensures t in Fuzzed(log)
    decreases |log|
  {
    var before, k :| Round(all, executed, log, cs, before, k);
    if i < |log| - 1 {
      TargetsOf(all, executed, Init(log), before, i, t);
    }
  }

  /** The greedy bound. */

  function Union(cs: seq<Command>): set<Target> {
    if cs == [] then {} else cs[0].targets + Union(cs[1..])
  }

  lemma AddOne(a: set<Target>, b: set<Target>, c: set<Target>)
    requires c <= a + b
    ensures |c| <= |a| + |b|
  {
    SubsetSize(c, a + b);
  }

  /** m times x, as a sum. */
  function Times(m: nat, x: real): real {
    if m == 0 then 0.0 else Times(m - 1, x) + x
  }

  lemma {:induction false} TimesIsProduct(m: nat, x: real)
    ensures Times(m, x) == m as real * x
    decreases m
  {
    if m > 0 {
      TimesIsProduct(m - 1, x);
      assert m as real == (m - 1) as real + 1.0;
    }
  }

  lemma {:induction false} TimesAdds(m: nat, x: real, y: real)
    ensures Times(m, x) + Times(m, y) == Times(m, x + y)
    decreases m
  {
    if m > 0 {
      TimesAdds(m - 1, x, y);
    }
  }

  /** If no command of a cover gains more than g, what is left is at most g for each of them. */
  lemma {:induction false} CoverBound(cover: seq<Command>, fuzzed: set<Target>, g: nat)
    requires forall j :: 0 <= j < |cover| ==> Gain(cover[j], fuzzed) <= g
    ensures |Union(cover) - fuzzed| as real <= Times(|cover|, g as real)
    decreases |cover|
  {
    if cover != [] {
      var rest := cover[1..];
      CoverBound(rest, fuzzed, g);
      AddOne(cover[0].targets - fuzzed, Union(rest) - fuzzed, Union(cover) - fuzzed);
    }
  }

  predicate AllSucceed(log: seq<Campaign>) {
    forall i :: 0 <= i < |log| ==> log[i].ok
  }

  /** While every campaign succeeds, a command is either still there or has nothing left to gain. */
  lemma {:induction false} StillThereOrDone(all: seq<Command>, executed: set<Target>, log: seq<Campaign>,
                                            cs: seq<Command>, c: Command)
    requires Greedy(all, executed, log, cs) && AllSucceed(log) && c in all
    ensures c in cs || c.targets <= Fuzzed(log)
    decreases |log|
  {
    if log != [] {
      var before, k :| Round(all, executed, log, cs, before, k);
      StillThereOrDone(all, executed, Init(log), before, c);
      if c in before && c != before[k] {
        WithoutSplits(before, k);
        assert c in multiset(cs);
      }
    }
  }

  /** Each round fuzzes at least R/m of the R targets left, when m recorded commands cover them all. */
  lemma EachRoundGains(all: seq<Command>, executed: set<Target>, log: seq<Campaign>, cs: seq<Command>,
                       cover: seq<Command>)
    requires Greedy(all, executed, log, cs) && log != [] && AllSucceed(log)
    requires (forall c :: c in cover ==> c in all) && executed <= Union(cover)
    ensures Times(|cover|, |Last(log).targets| as real) >= |executed - Fuzzed(Init(log))| as real
  {
    var before, k :| Round(all, executed, log, cs, before, k);
    var fuzzed := Fuzzed(Init(log));
    forall j | 0 <= j < |cover|
      ensures Gain(cover[j], fuzzed) <= |Last(log).targets|
    {
      StillThereOrDone(all, executed, Init(log), before, cover[j]);
      if cover[j] in before {
        var i :| 0 <= i < |before| && before[i] == cover[j];
      } else {
        assert cover[j].targets - fuzzed == {};
      }
    }
    CoverBound(cover, fuzzed, |Last(log).targets|);
    SubsetSize(executed - fuzzed, Union(cover) - fuzzed);
  }

  /** The harmonic numbers. */
  function H(n: nat): real {
    if n == 0 then 0.0 else H(n - 1) + 1.0 / n as real
  }

  /** The g terms below 1/r in a harmonic sum come to at least g/r. */
  lemma {:induction false} HarmonicDrop(r: nat, g: nat, top: nat)
    requires g <= r <= top && top > 0
    ensures (H(r) - H(r - g)) * top as real >= g as real
    decreases g
  {
    if g > 0 {
      HarmonicDrop(r - 1, g - 1, top);
      Reciprocal(r, top);
    }
  }

  lemma Reciprocal(r: nat, top: nat)
    requires 0 < r <= top
    ensures (1.0 / r as real) * top as real >= 1.0
  {
    assert (1.0 / r as real) * r as real == 1.0;
  }

  lemma WholeRound(drop: real, r: real, g: real, m: real)
    requires r > 0.0 && m >= 0.0 && drop * r >= g && m * g >= r
    ensures drop * m >= 1.0
  {
    var p := drop * r;
    Scale(m, g, p);
    assert m * p >= r;
    Reorder(m, drop, r, p, drop * m);
    Cancel(drop * m, r);
  }

  lemma Reorder(m: real, d: real, r: real, p: real, x: real)
    requires p == d * r && x == d * m
    ensures m * p == x * r
  {}

  /** A round that takes g of r targets, g no less than r/m, is paid for by m times the harmonic drop. */
  lemma HarmonicPay(r: nat, g: nat, m: nat)
    requires 0 < r && g <= r && Times(m, g as real) >= r as real
    ensures Times(m, H(r) - H(r - g)) >= 1.0
  {
    HarmonicDrop(r, g, r);
    TimesIsProduct(m, g as real);
    TimesIsProduct(m, H(r) - H(r - g));
    WholeRound(H(r) - H(r - g), r as real, g as real, m as real);
  }

  lemma Cancel(x: real, r: real)
    requires r > 0.0 && x * r >= r
    ensures x >= 1.0
  {
    if x < 1.0 {
      Scale(r, x, 1.0);
    }
  }

  lemma Scale(k: real, a: real, b: real)
    requires k >= 0.0 && a <= b
    ensures k * a <= k * b
    ensures k > 0.0 && a < b ==> k * a < k * b
  {}

  /** The rounds so far are paid for by the fall of the harmonic sum. */
  lemma {:induction false} RoundsPaid(all: seq<Command>, executed: set<Target>, log: seq<Campaign>, cs: seq<Command>,
                                      cover: seq<Command>)
    requires Greedy(all, executed, log, cs) && AllSucceed(log) && AllWithin(all, executed)
    requires (forall c :: c in cover ==> c in all) && executed <= Union(cover)
    ensures |Fuzzed(log)| <= |executed|
    ensures |log| as real <= Times(|cover|, H(|executed|) - H(|executed| - |Fuzzed(log)|))
    decreases |log|
  {
    if log == [] {
      TimesIsProduct(|cover|, 0.0);
    } else {
      var before, k :| Round(all, executed, log, cs, before, k);
      RoundsPaid(all, executed, Init(log), before, cover);
      OneRoundPaid(all, executed, log, cs, cover);
      var n := |executed|;
      PayMore(|cover|, H(n), H(n - |Fuzzed(Init(log))|), H(n - |Fuzzed(log)|));
    }
  }

  lemma PayMore(m: nat, a: real, b: real, c: real)
    ensures Times(m, a - c) == Times(m, a - b) + Times(m, b - c)
  {
    TimesAdds(m, a - b, b - c);
    assert (a - b) + (b - c) == a - c;
  }

  lemma OneRoundPaid(all: seq<Command>, executed: set<Target>, log: seq<Campaign>, cs: seq<Command>,
                     cover: seq<Command>)
    requires Greedy(all, executed, log, cs) && log != [] && AllSucceed(log) && AllWithin(all, executed)
    requires (forall c :: c in cover ==> c in all) && executed <= Union(cover)
    ensures |Fuzzed(Init(log))| <= |Fuzzed(log)| <= |executed|
    ensures Times(|cover|, H(|executed| - |Fuzzed(Init(log))|) - H(|executed| - |Fuzzed(log)|)) >= 1.0
  {
    var r, g := RoundMeasure(all, executed, log, cs, cover);
    HarmonicPay(r, g, |cover|);
  }

  lemma RoundMeasure(all: seq<Command>, executed: set<Target>, log: seq<Campaign>, cs: seq<Command>,
                     cover: seq<Command>)
    returns (r: nat, g: nat)
    requires Greedy(all, executed, log, cs) && log != [] && AllSucceed(log) && AllWithin(all, executed)
    requires (forall c :: c in cover ==> c in all) && executed <= Union(cover)
    ensures r == |executed| - |Fuzzed(Init(log))| && r - g == |executed| - |Fuzzed(log)|
    ensures 0 < r && g <= r && Times(|cover|, g as real) >= r as real
  {
    LastGain(all, executed, log, cs);
    EachRoundGains(all, executed, log, cs, cover);
    r, g := |executed| - |Fuzzed(Init(log))|, |Last(log).targets|;
  }

  /** What a successful last round does to the count of targets left. */
  lemma LastGain(all: seq<Command>, executed: set<Target>, log: seq<Campaign>, cs: seq<Command>)
    requires Greedy(all, executed, log, cs) && log != [] && AllWithin(all, executed) && Last(log).ok
    ensures |Fuzzed(Init(log))| < |executed| && |Fuzzed(log)| <= |executed|
    ensures |Fuzzed(log)| == |Fuzzed(Init(log))| + |Last(log).targets|
    ensures |executed - Fuzzed(Init(log))| == |executed| - |Fuzzed(Init(log))|
  {
    var before, k :| Round(all, executed, log, cs, before, k);
    Conservation(all, executed, log, cs);
    Conservation(all, executed, Init(log), before);
    SubsetSize(Fuzzed(log), executed);
    var fuzzed := Fuzzed(Init(log));
    assert executed == fuzzed + (executed - fuzzed);
  }

  /** When every campaign succeeds, the loop fuzzes every executed target. */
  lemma AllFuzzed(all: seq<Command>, executed: set<Target>, log: seq<Campaign>, cs: seq<Command>)
    requires Greedy(all, executed, log, cs) && Stuck(executed, log, cs) && AllSucceed(log) && executed == Union(all)
    ensures AllWithin(all, executed) && Fuzzed(log) == executed
  {
    Members(all);
    Conservation(all, executed, log, cs);
    forall t | t in executed
      ensures t in Fuzzed(log)
    {
      var c := RunBy(all, t);
      if t !in Fuzzed(log) {
        UnfuzzedMeansAllFailed(all, executed, log, cs, t, c);
      }
    }
  }

  /** If besides some m recorded commands cover them all, it does so in at most m times the harmonic
      number of their count. */
  lemma GreedyBound(all: seq<Command>, executed: set<Target>, log: seq<Campaign>, cs: seq<Command>, cover: seq<Command>)
    requires Greedy(all, executed, log, cs) && Stuck(executed, log, cs) && AllSucceed(log) && executed == Union(all)
    requires (forall c :: c in cover ==> c in all) && executed <= Union(cover)
    ensures |log| as real <= Times(|cover|, H(|executed|))
  {
    AllFuzzed(all, executed, log, cs);
    RoundsPaid(all, executed, log, cs, cover);
    assert H(|executed|) - H(0) == H(|executed|);
  }

  lemma {:induction false} Members(cs: seq<Command>)
    ensures AllWithin(cs, Union(cs))
    decreases |cs|
  {
    if cs != [] {
      Members(cs[1..]);
      forall j | 0 <= j < |cs|
        ensures cs[j].targets <= Union(cs)
      {
        assert j > 0 ==> cs[j] == cs[1..][j - 1];
      }
    }
  }

  lemma {:induction false} RunBy(cs: seq<Command>, t: Target) returns (c: Command)
    requires t in Union(cs)
    ensures c in cs && t in c.targets
    decreases |cs|
  {
    if t in cs[0].targets {
      c := cs[0];
    } else {
      c := RunBy(cs[1..], t);
    }
  }
}
