/** The reader of the recorded log: which commands there are and which targets each of them runs. */
module CommandLog {
  import opened Scheduler
  import opened LogSections

  /** The targets that a line mentions, by a walk over the configured ones. */
  method Match(f: Format, targets: seq<Target>, line: string) returns (found: set<Target>)
    ensures forall t :: t in found <==> t in targets && f.runs(t, line)
  {
    found := {};
    for i := 0 to |targets|
      invariant forall t :: t in found <==> t in targets[..i] && f.runs(t, line)
    {
      assert targets[..i + 1] == targets[..i] + [targets[i]];
      if f.runs(targets[i], line) {
        found := found + {targets[i]};
      }
    }
    assert targets[..|targets|] == targets;
  }

  lemma {:induction false} ExecutedInside(f: Format, targets: seq<Target>, lines: seq<string>, n: nat, t: Target)
    requires n <= |lines|
    ensures t in ExecutedIn(f, targets, lines, n) <==> Executed(f, targets, lines, n, t)
    decreases n
  {
    if n > 0 {
      ExecutedInside(f, targets, lines, n - 1, t);
    }
  }

  lemma {:induction false} UnionSnoc(cs: seq<Command>, c: Command)
    ensures Union(cs + [c]) == Union(cs) + c.targets
    decreases |cs|
  {
    if cs == [] {
      assert [c][1..] == [];
    } else {
      UnionSnoc(cs[1..], c);
      assert (cs + [c])[1..] == cs[1..] + [c];
    }
  }

  lemma {:induction false} TargetsInside(f: Format, targets: seq<Target>, lines: seq<string>, a: nat, b: nat, t: Target)
    requires a <= b <= |lines|
    ensures t in TargetsIn(f, targets, lines, a, b) <==> t in targets && MentionedIn(f, lines, a, b, t)
    decreases b
  {
    if a < b {
      TargetsInside(f, targets, lines, a, b - 1, t);
    }
  }

  lemma {:induction false} ReadCommand(f: Format, targets: seq<Target>, lines: seq<string>, start: nat, end: nat,
                                       n: nat)
    requires Open(f, lines, start, end) && (end == |lines| || IsHeading(f, lines, end))
    ensures ReadOff(f, targets, lines, Section(start, end),
                    Command(TargetsIn(f, targets, lines, start, end), TextIn(f, lines, start, end, n)), n)
  {
    forall t
      ensures t in TargetsIn(f, targets, lines, start, end) <==> t in targets && MentionedIn(f, lines, start, end, t)
    {
      TargetsInside(f, targets, lines, start, end, t);
    }
  }

  /** A section that ends before line end + 1 ended before this one began, or is this one. */
  lemma {:induction false} OnlyThisOne(f: Format, lines: seq<string>, start: nat, end: nat, s: Section)
    requires Open(f, lines, start, end) && IsSection(f, lines, s) && s.end <= end
    requires end == |lines| || IsHeading(f, lines, end)
    ensures s.end < start || s == Section(start, end)
  {}

  lemma {:induction false} Dropped(f: Format, targets: seq<Target>, lines: seq<string>, commands: seq<Command>,
                                   sections: seq<Section>, start: nat, end: nat)
    requires ReadSoFar(f, targets, lines, commands, sections, start) && Open(f, lines, start, end)
    requires (end == |lines| || IsHeading(f, lines, end)) && TargetsIn(f, targets, lines, start, end) == {}
    ensures ReadSoFar(f, targets, lines, commands, sections, end + 1)
  {
    forall s | IsSection(f, lines, s) && s.end < end + 1 && Useful(f, targets, lines, s)
      ensures s in sections
    {
      OnlyThisOne(f, lines, start, end, s);
      if s == Section(start, end) {
        var t :| t in targets && MentionedIn(f, lines, start, end, t);
        TargetsInside(f, targets, lines, start, end, t);
      }
    }
  }

  lemma {:induction false} Taken(f: Format, targets: seq<Target>, lines: seq<string>, commands: seq<Command>,
                                 sections: seq<Section>, start: nat, end: nat, c: Command)
    requires ReadSoFar(f, targets, lines, commands, sections, start) && Open(f, lines, start, end)
    requires end == |lines| || IsHeading(f, lines, end)
    requires c == Command(TargetsIn(f, targets, lines, start, end), TextIn(f, lines, start, end, |commands|))
    ensures ReadSoFar(f, targets, lines, commands + [c], sections + [Section(start, end)], end + 1)
  {
    ReadCommand(f, targets, lines, start, end, |commands|);
    var cs, ss := commands + [c], sections + [Section(start, end)];
    assert forall k :: 0 <= k < |commands| ==> cs[k] == commands[k] && ss[k] == sections[k];
    forall s | IsSection(f, lines, s) && s.end < end + 1 && Useful(f, targets, lines, s)
      ensures s in ss
    {
      OnlyThisOne(f, lines, start, end, s);
      assert ss[|sections|] == Section(start, end);
      if s.end < start {
        assert s in sections;
      }
    }
  }

  /** What a line that is no heading of functions leads to. */
  lemma {:induction false} OtherLine(f: Format, targets: seq<Target>, lines: seq<string>, i: nat, mode: Mode,
                                     commands: seq<Command>, sections: seq<Section>, start: nat, toFuzz: set<Target>,
                                     text: string, executed: set<Target>)
    requires i < |lines| && !IsHeading(f, lines, i)
    requires Reading(f, targets, lines, i, mode, commands, sections, start, toFuzz, text, executed)
    ensures
      var found := set t | t in targets && Mentions(f, lines, i, t);
      var more :=
        if f.kind(lines[i]) == Other && mode != Start && mode != InFunctions
        then f.extend(text, mode, lines[i], |commands|) else text;
      Reading(f, targets, lines, i + 1, ModeAt(f, lines, i + 1), commands, sections, start,
              toFuzz + found, more, executed + found)
    ensures
      f.kind(lines[i]) != Other || mode != InFunctions ==> (set t | t in targets && Mentions(f, lines, i, t)) == {}
  {}

  /** The heading of a section mentions nothing, and nothing has been read of the section it opens. */
  lemma {:induction false} Opened(f: Format, targets: seq<Target>, lines: seq<string>, i: nat, n: nat)
    requires i < |lines| && IsHeading(f, lines, i)
    ensures Open(f, lines, i + 1, i + 1) && ModeAt(f, lines, i + 1) == InFunctions
    ensures TargetsIn(f, targets, lines, i + 1, i + 1) == {} && TextIn(f, lines, i + 1, i + 1, n) == ""
    ensures ExecutedIn(f, targets, lines, i + 1) == ExecutedIn(f, targets, lines, i)
  {
    assert (set t | t in targets && Mentions(f, lines, i, t)) == {};
  }

  lemma {:induction false} AllButOne(commands: seq<Command>, toFuzz: set<Target>, text: string)
    requires AllRunSomething(commands) && toFuzz != {}
    ensures AllRunSomething(commands + [Command(toFuzz, text)])
  {}

  /** A heading closes the section before it; a section without a target leaves no command. */
  method CloseSection(f: Format, ghost targets: seq<Target>, ghost lines: seq<string>, ghost i: nat, ghost mode: Mode,
                      commands: seq<Command>, ghost sections: seq<Section>, ghost start: nat, toFuzz: set<Target>,
                      text: string, ghost executed: set<Target>)
    returns (more: seq<Command>, ghost sections': seq<Section>)
    requires i < |lines| && IsHeading(f, lines, i)
    requires Reading(f, targets, lines, i, mode, commands, sections, start, toFuzz, text, executed)
    ensures Reading(f, targets, lines, i + 1, InFunctions, more, sections', i + 1, {}, "", executed)
  {
    more, sections' := commands, sections;
    if |toFuzz| > 0 {
      UnionSnoc(commands, Command(toFuzz, text));
      AllButOne(commands, toFuzz, text);
      Taken(f, targets, lines, commands, sections, start, i, Command(toFuzz, text));
      more := commands + [Command(toFuzz, text)];
      sections' := sections + [Section(start, i)];
    } else {
      Dropped(f, targets, lines, commands, sections, start, i);
    }
    Opened(f, targets, lines, i, |more|);
  }

  /** At the end of the log the open section is closed, whatever it mentions. */
  lemma {:induction false} Ended(f: Format, targets: seq<Target>, lines: seq<string>, mode: Mode,
                                 commands: seq<Command>, sections: seq<Section>, start: nat, toFuzz: set<Target>,
                                 text: string, executed: set<Target>)
    requires Reading(f, targets, lines, |lines|, mode, commands, sections, start, toFuzz, text, executed)
    ensures ReadSoFar(f, targets, lines, commands + [Command(toFuzz, text)], sections + [Section(start, |lines|)],
                      |lines| + 1)
    ensures Union(commands + [Command(toFuzz, text)]) == executed && AllRunSomething(commands)
    ensures forall t :: t in executed <==> Executed(f, targets, lines, |lines|, t)
  {
    forall t
      ensures t in executed <==> Executed(f, targets, lines, |lines|, t)
    {
      ExecutedInside(f, targets, lines, |lines|, t);
    }
    UnionSnoc(commands, Command(toFuzz, text));
    Taken(f, targets, lines, commands, sections, start, |lines|, Command(toFuzz, text));
  }

  /** Each command is read off one section of the log, the sections come in their order and the last of
      them ends the log, every section that mentions a configured target has its command, and every
      command but the last runs one. The union of the target sets is exactly what is executed. */
  method ReadLog(f: Format, targets: seq<Target>, lines: seq<string>)
    returns (commands: seq<Command>, executed: set<Target>, ghost sections: seq<Section>)
    ensures FromSections(f, targets, lines, commands, sections, |lines| + 1)
    ensures NoneMissing(f, targets, lines, sections, |lines| + 1)
    ensures commands != [] && AllRunSomething(commands[..|commands| - 1])
    ensures sections != [] && sections[|sections| - 1].end == |lines|
    ensures Union(commands) == executed
    ensures forall t :: t in executed <==> Executed(f, targets, lines, |lines|, t)
  {
    commands, executed, sections := [], {}, [];
    var mode, text, toFuzz := Start, "", {};
    ghost var start := 0;
    for i := 0 to |lines|
      invariant Reading(f, targets, lines, i, mode, commands, sections, start, toFuzz, text, executed)
    {
      var line := lines[i];
      if f.kind(line) != Functions {
        OtherLine(f, targets, lines, i, mode, commands, sections, start, toFuzz, text, executed);
      }
      match f.kind(line) {
        case Blank =>
        case Functions =>
          commands, sections :=
            CloseSection(f, targets, lines, i, mode, commands, sections, start, toFuzz, text, executed);
          mode, text, toFuzz, start := InFunctions, "", {}, i + 1;
        case Environment =>
          mode := InEnvironment;
        case CmdLine =>
          mode := InCmdLine;
        case Cwd =>
          mode := InCwd;
        case Other =>
          if mode == InFunctions {
            var found := Match(f, targets, line);
            toFuzz, executed := toFuzz + found, executed + found;
          } else if mode != Start {
            text := f.extend(text, mode, line, |commands|);
          }
      }
    }
    Ended(f, targets, lines, mode, commands, sections, start, toFuzz, text, executed);
    assert (commands + [Command(toFuzz, text)])[..|commands|] == commands;
    commands := commands + [Command(toFuzz, text)];
    sections := sections + [Section(start, |lines|)];
  }

  /** From the log to the campaigns: what the reader hands over meets what the scheduler needs. */
  method ReadAndSchedule(f: Format, targets: seq<Target>, lines: seq<string>, outcome: nat -> bool)
    returns (commands: seq<Command>, executed: set<Target>, log: seq<Campaign>, rest: seq<Command>,
             ghost sections: seq<Section>)
    ensures FromSections(f, targets, lines, commands, sections, |lines| + 1)
    ensures NoneMissing(f, targets, lines, sections, |lines| + 1)
    ensures executed == Union(commands) && AllWithin(commands, executed)
    ensures Greedy(commands, executed, log, rest) && Stuck(executed, log, rest) && Follows(log, outcome)
    ensures Fuzzed(log) <= executed
    ensures AllSucceed(log) ==> forall t :: t in Fuzzed(log) <==> Executed(f, targets, lines, |lines|, t)
  {
    commands, executed, sections := ReadLog(f, targets, lines);
    log, rest := Schedule(commands, executed, outcome);
    Members(commands);
    Conservation(commands, executed, log, rest);
    if AllSucceed(log) {
      AllFuzzed(commands, executed, log, rest);
    }
  }
}
