/** The recorded log: its lines, its sections, and what each section stands for. */
module LogSections {
  import opened Scheduler

  /** What a stripped line of the log is. */
  datatype Kind = Blank | Functions | Environment | CmdLine | Cwd | Other

  datatype Mode = Start | InFunctions | InEnvironment | InCmdLine | InCwd

  /** The tests on lines and the text assembled from them, left open. */
  datatype Format = Format(
    kind: string -> Kind,
    runs: (Target, string) -> bool,
    extend: (string, Mode, string, nat) -> string)

  /** The section in which line i stands: the one opened by the last heading before it. */
  function ModeAt(f: Format, lines: seq<string>, i: nat): Mode
    requires i <= |lines|
  {
    if i == 0 then Start
    else match f.kind(lines[i - 1])
      case Functions => InFunctions
      case Environment => InEnvironment
      case CmdLine => InCmdLine
      case Cwd => InCwd
      case _ => ModeAt(f, lines, i - 1)
  }

  /** Line i says that target t is executed. */
  predicate Mentions(f: Format, lines: seq<string>, i: nat, t: Target)
    requires i < |lines|
  {
    f.kind(lines[i]) == Other && ModeAt(f, lines, i) == InFunctions && f.runs(t, lines[i])
  }

  predicate Executed(f: Format, targets: seq<Target>, lines: seq<string>, n: nat, t: Target)
    requires n <= |lines|
  {
    t in targets && exists i :: 0 <= i < n && Mentions(f, lines, i, t)
  }

  function ExecutedIn(f: Format, targets: seq<Target>, lines: seq<string>, n: nat): set<Target>
    requires n <= |lines|
  {
    if n == 0 then {}
    else ExecutedIn(f, targets, lines, n - 1) + set t | t in targets && Mentions(f, lines, n - 1, t)
  }

  predicate AllRunSomething(cs: seq<Command>) {
    forall j :: 0 <= j < |cs| ==> cs[j].targets != {}
  }

  /** A stretch of lines: behind a heading of functions or from the start, up to the next such heading or
      to the end. */
  datatype Section = Section(first: nat, end: nat)

  predicate IsHeading(f: Format, lines: seq<string>, i: nat)
    requires i < |lines|
  {
    f.kind(lines[i]) == Functions
  }

  predicate IsSection(f: Format, lines: seq<string>, s: Section) {
    && s.first <= s.end <= |lines|
    && (s.first == 0 || IsHeading(f, lines, s.first - 1))
    && (s.end == |lines| || IsHeading(f, lines, s.end))
    && forall i :: s.first <= i < s.end ==> !IsHeading(f, lines, i)
  }

  /** Some line from a on and before b mentions target t. */
  predicate MentionedIn(f: Format, lines: seq<string>, a: nat, b: nat, t: Target)
    requires b <= |lines|
  {
    exists i :: a <= i < b && Mentions(f, lines, i, t)
  }

  /** The text put together from the lines a..b, in the place of command n. */
  function TextIn(f: Format, lines: seq<string>, a: nat, b: nat, n: nat): string
    requires a <= b <= |lines|
    decreases b
  {
    if a == b then ""
    else
      var text := TextIn(f, lines, a, b - 1, n);
      var mode := ModeAt(f, lines, b - 1);
      if f.kind(lines[b - 1]) == Other && (mode == InEnvironment || mode == InCmdLine || mode == InCwd)
      then f.extend(text, mode, lines[b - 1], n)
      else text
  }

  /** Command n was read off section s: its targets are the configured ones that a line of the section
      mentions, and its text is that of the section. */
  ghost predicate ReadOff(f: Format, targets: seq<Target>, lines: seq<string>, s: Section, c: Command, n: nat) {
    && IsSection(f, lines, s)
    && (forall t :: t in c.targets <==> t in targets && MentionedIn(f, lines, s.first, s.end, t))
    && c.text == TextIn(f, lines, s.first, s.end, n)
  }

  /** A section with something to fuzz. */
  predicate Useful(f: Format, targets: seq<Target>, lines: seq<string>, s: Section)
    requires s.end <= |lines|
  {
    exists t :: t in targets && MentionedIn(f, lines, s.first, s.end, t)
  }

  /** The commands come from sections in their order, all of which end before line `bound`. */
  ghost predicate FromSections(f: Format, targets: seq<Target>, lines: seq<string>, commands: seq<Command>,
                               sections: seq<Section>, bound: nat) {
    && |sections| == |commands|
    && (forall k :: 0 <= k < |sections| ==>
          ReadOff(f, targets, lines, sections[k], commands[k], k) && sections[k].end < bound)
    && (forall k, l :: 0 <= k < l < |sections| ==> sections[k].end < sections[l].first)
  }

  /** No useful section that ends before line `bound` is missing. */
  ghost predicate NoneMissing(f: Format, targets: seq<Target>, lines: seq<string>, sections: seq<Section>, bound: nat) {
    forall s :: IsSection(f, lines, s) && s.end < bound && Useful(f, targets, lines, s) ==> s in sections
  }

  /** The targets of the lines a..b. */
  function TargetsIn(f: Format, targets: seq<Target>, lines: seq<string>, a: nat, b: nat): set<Target>
    requires a <= b <= |lines|
    decreases b
  {
    if a == b then {}
    else TargetsIn(f, targets, lines, a, b - 1) + set t | t in targets && Mentions(f, lines, b - 1, t)
  }

  /** The lines from `start` on, up to line i, belong to one section. */
  predicate Open(f: Format, lines: seq<string>, start: nat, i: nat) {
    && start <= i <= |lines|
    && (start == 0 || IsHeading(f, lines, start - 1))
    && forall j :: start <= j < i ==> !IsHeading(f, lines, j)
  }

  /** What is known of the commands read so far, when the section from `start` on is open. */
  ghost predicate ReadSoFar(f: Format, targets: seq<Target>, lines: seq<string>, commands: seq<Command>,
                            sections: seq<Section>, start: nat) {
    && FromSections(f, targets, lines, commands, sections, start)
    && NoneMissing(f, targets, lines, sections, start)
  }

  /** Where the reader stands before line i: the section from `start` on is open. */
  ghost predicate Reading(f: Format, targets: seq<Target>, lines: seq<string>, i: nat, mode: Mode,
                          commands: seq<Command>, sections: seq<Section>, start: nat, toFuzz: set<Target>,
                          text: string, executed: set<Target>) {
    && Open(f, lines, start, i) && ReadSoFar(f, targets, lines, commands, sections, start)
    && mode == ModeAt(f, lines, i)
    && toFuzz == TargetsIn(f, targets, lines, start, i)
    && text == TextIn(f, lines, start, i, |commands|)
    && Union(commands) + toFuzz == executed && AllRunSomething(commands)
    && executed == ExecutedIn(f, targets, lines, i)
  }
}
