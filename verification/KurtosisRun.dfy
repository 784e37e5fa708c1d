/** Launching a package through the kurtosis command line, with retries. */
module KurtosisRun {
  import Strings = Text
  import opened Wrappers

  datatype Value = Number(n: int) | Flag(on: bool) | Text(s: string)

  type Args = map<string, Value>

  datatype Command =
    | ListEnclaves
    | RemoveEnclave(enclave: string)
    | BuildImage(dir: string, tag: string)
    | Launch(enclave: string, args: Args)
    | Inspect(enclave: string, service: string)

  /** What a command answers. `names` is what its output lists; `hung` tells that the watchdog, if
      armed, tripped; `cancelled` and `cancelledWaiting` that the caller's context was done after
      the command, and during the pause before a retry. */
  datatype Reply = Reply(err: Option<string>, stdout: string, stderr: string, names: seq<string>,
                         hung: bool, cancelled: bool, cancelledWaiting: bool)

  /** The machine commands are issued on: command number k is answered by replies(k). */
  class Host {
    const replies: nat -> Reply
    var trace: seq<Command>
    var saved: map<string, Args>

    constructor (replies: nat -> Reply, saved: map<string, Args>)
      ensures this.replies == replies && trace == [] && this.saved == saved
    {
      this.replies, trace, this.saved := replies, [], saved;
    }

    method Do(command: Command) returns (r: Reply)
      modifies this`trace
      ensures trace == old(trace) + [command] && r == replies(|old(trace)|)
    {
      r := replies(|trace|);
      trace := trace + [command];
    }
  }

  // ---------------------------------------------------------------------------------------------
  // Reading output
  // ---------------------------------------------------------------------------------------------

  predicate Contains(text: string, part: string) {
    exists i :: 0 <= i <= |text| && part <= text[i..]
  }

  function LowerChar(c: char): char {
    if 'A' <= c <= 'Z' then (c as int + 32) as char else c
  }

  function Lower(s: string): string {
    seq(|s|, i requires 0 <= i < |s| => LowerChar(s[i]))
  }

  function Lines(text: string): seq<string> {
    if text == [] then [""]
    else
      var rest := Lines(text[1..]);
      if text[0] == '\n' then [""] + rest
      else [[text[0]] + rest[0]] + rest[1..]
  }

  /** The marks are sought at the start of a line, so only leading space has to be trimmed. */
  function TrimLeft(line: string): string {
    if line != [] && IsSpace(line[0]) then TrimLeft(line[1..]) else line
  }

  /** unicode.IsSpace */
  predicate IsSpace(c: char) {
    || 9 <= c as int <= 13 || c == ' ' || c as int in {0x85, 0xA0, 0x1680, 0x2028, 0x2029, 0x202F, 0x205F, 0x3000}
    || 0x2000 <= c as int <= 0x200A
  }

  predicate Marked(line: string) {
    var trimmed := TrimLeft(line);
    || "There was an error interpreting " + "Starlark code" <= trimmed
    || "There was an error executing Starlark code" <= trimmed
    || "Error encountered running Starlark code" <= trimmed
  }

  predicate StarlarkFailed(output: string) {
    exists line :: line in Lines(output) && Marked(line)
  }

  const TRANSIENT_MARKS := ["signal: killed", "context deadline exceeded", "Error uploading package",
                            "sending 'github.com/XRPL-Commons/xrpl-confluence'",
                            "empty bridge network IP", "EOF"]

  const GONE_MARKS := ["not found", "no such enclave", "no enclave found with identifier", "doesn't exist"]

  predicate ContainsAny(text: string, marks: seq<string>) {
    exists mark :: mark in marks && Contains(text, mark)
  }

  /** Removing an enclave that does not exist is a success. */
  predicate Removed(r: Reply) {
    r.err.None? || ContainsAny(Lower(r.stderr), GONE_MARKS)
  }

  datatype Attempt = Succeeded | Broke(err: string, bootHang: bool)

  /** How a launch ended. A launch that finished cleanly is none the worse for a tripped watchdog,
      but reported Starlark failures count as failures whatever the exit. */
  function Ended(r: Reply, threshold: int): Attempt {
    match r.err
    case Some(err) => Broke(err, 0 < threshold && r.hung)
    case None =>
      if StarlarkFailed(r.stdout + "\n" + r.stderr) then Broke("Kurtosis reported a Starlark failure", false) else Succeeded
  }

  predicate IsTransient(a: Attempt, r: Reply)
    requires a.Broke?
  {
    a.bootHang || ContainsAny(r.stdout + "\n" + r.stderr + "\n" + a.err, TRANSIENT_MARKS)
  }

  // ---------------------------------------------------------------------------------------------
  // What the output says
  // ---------------------------------------------------------------------------------------------

  /** The text has the part somewhere. */
  ghost predicate Mentions(text: string, part: string) {
    exists before, after :: text == before + part + after
  }

  /** The text has the part at `k`, in whatever case. `part` is in lower case. */
  ghost predicate SaysAt(text: string, part: string, k: int) {
    && 0 <= k <= |text| - |part|
    && forall i :: 0 <= i < |part| ==>
         text[k + i] == part[i] || ('a' <= part[i] <= 'z' && text[k + i] as int == part[i] as int - 32)
  }

  ghost predicate Says(text: string, part: string) {
    exists k :: SaysAt(text, part, k)
  }

  lemma ContainsIs(text: string, part: string)
    ensures Contains(text, part) <==> Mentions(text, part)
  {
    if Contains(text, part) {
      var i :| 0 <= i <= |text| && part <= text[i..];
      assert text == text[..i] + part + text[i + |part|..];
    }
    if before, after :| text == before + part + after {
      assert part <= text[|before|..];
    }
  }

  ghost predicate InLowerCase(s: string) {
    forall i :: 0 <= i < |s| ==> !('A' <= s[i] <= 'Z')
  }

  lemma LoweredIs(text: string, part: string)
    requires InLowerCase(part)
    ensures Contains(Lower(text), part) <==> Says(text, part)
  {
    forall k | 0 <= k <= |text| - |part|
      ensures part <= Lower(text)[k..] <==> SaysAt(text, part, k)
    {
      assert part <= Lower(text)[k..] <==> forall i :: 0 <= i < |part| ==> Lower(text)[k + i] == part[i] by {
        if forall i :: 0 <= i < |part| ==> Lower(text)[k + i] == part[i] {
          assert part == Lower(text)[k..][..|part|];
        }
        if part <= Lower(text)[k..] {
          forall i | 0 <= i < |part|
            ensures Lower(text)[k + i] == part[i]
          {
            assert Lower(text)[k..][i] == part[i];
          }
        }
      }
      forall i | 0 <= i < |part|
        ensures Lower(text)[k + i] == part[i]
                <==> text[k + i] == part[i] || ('a' <= part[i] <= 'z' && text[k + i] as int == part[i] as int - 32)
      {
        assert Lower(text)[k + i] == LowerChar(text[k + i]);
      }
    }
  }

  /** A removal counts as done exactly when it ended well or its errors say, in any case, that there
      is no such enclave. */
  lemma RemovedIs(r: Reply)
    ensures Removed(r) <==>
              || r.err == None
              || Says(r.stderr, "not found") || Says(r.stderr, "no such enclave")
              || Says(r.stderr, "no enclave found with identifier") || Says(r.stderr, "doesn't exist")
  {
    hide Contains, Says, Lower, InLowerCase;
    var marks := GONE_MARKS;
    forall mark | mark in marks
      ensures Contains(Lower(r.stderr), mark) <==> Says(r.stderr, mark)
    {
      GoneInLowerCase(mark);
      LoweredIs(r.stderr, mark);
    }
    assert marks[0] in marks && marks[1] in marks && marks[2] in marks && marks[3] in marks;
  }

  lemma GoneInLowerCase(mark: string)
    requires mark in GONE_MARKS
    ensures InLowerCase(mark)
  {
  }

  /** White space: tabs, line ends, blanks and the separators of Unicode. */
  ghost predicate IsBlank(c: char) {
    || c in {'\t', '\n', '\U{000B}', '\U{000C}', '\r', ' ', '\U{0085}', '\U{00A0}', '\U{1680}'}
    || '\U{2000}' <= c <= '\U{200A}' || c in {'\U{2028}', '\U{2029}', '\U{202F}', '\U{205F}', '\U{3000}'}
  }

  lemma BlanksAreSpace()
    ensures forall c :: IsSpace(c) <==> IsBlank(c)
  {
  }

  ghost predicate OnlySpace(s: string) {
    forall i :: 0 <= i < |s| ==> IsBlank(s[i])
  }

  ghost predicate Opens(line: string, mark: string) {
    exists k :: 0 <= k <= |line| && OnlySpace(line[..k]) && mark <= line[k..]
  }

  lemma {:induction false} TrimmedIs(line: string, mark: string)
    requires mark != [] && !IsSpace(mark[0])
    ensures mark <= TrimLeft(line) <==> Opens(line, mark)
  {
    hide IsSpace;
    if line != [] && IsSpace(line[0]) {
      TrimmedIs(line[1..], mark);
      OpensLater(line, mark);
    } else {
      OpensHere(line, mark);
    }
  }

  lemma MarkIsNotFirst(line: string, mark: string)
    requires line != [] && IsSpace(line[0]) && mark != [] && !IsSpace(mark[0])
    ensures !(mark <= line)
  {
    assert line[..1] == [line[0]] && mark[..1] == [mark[0]];
  }

  lemma OpensLater(line: string, mark: string)
    requires line != [] && IsSpace(line[0]) && mark != [] && !IsSpace(mark[0])
    ensures Opens(line, mark) <==> Opens(line[1..], mark)
  {
    hide IsSpace, OnlySpace;
    MarkIsNotFirst(line, mark);
    if Opens(line[1..], mark) {
      var k :| 0 <= k <= |line[1..]| && OnlySpace(line[1..][..k]) && mark <= line[1..][k..];
      SpaceBefore(line, k);
      assert line[k + 1..] == line[1..][k..];
    }
    if Opens(line, mark) {
      var k :| 0 <= k <= |line| && OnlySpace(line[..k]) && mark <= line[k..];
      assert line[0..] == line;
      SpaceBefore(line, k - 1);
      assert line[k..] == line[1..][k - 1..];
    }
  }

  lemma SpaceBefore(line: string, k: nat)
    requires line != [] && IsSpace(line[0]) && k <= |line| - 1
    ensures OnlySpace(line[1..][..k]) <==> OnlySpace(line[..k + 1])
  {
    BlanksAreSpace();
    hide IsSpace, IsBlank;
    assert line[..k + 1] == [line[0]] + line[1..][..k];
    assert forall i :: 0 <= i < k ==> line[1..][..k][i] == line[..k + 1][i + 1];
  }

  lemma OpensHere(line: string, mark: string)
    requires line == [] || !IsSpace(line[0])
    ensures mark <= line <==> Opens(line, mark)
  {
    hide IsSpace;
    if mark <= line {
      assert OnlySpace(line[..0]) && line[0..] == line;
    }
    if Opens(line, mark) {
      var k :| 0 <= k <= |line| && OnlySpace(line[..k]) && mark <= line[k..];
      FirstIsSpace(line, k);
    }
  }

  lemma FirstIsSpace(line: string, k: nat)
    requires k <= |line| && OnlySpace(line[..k])
    ensures k == 0 || IsSpace(line[0])
  {
    BlanksAreSpace();
    hide IsSpace, IsBlank;
    assert 0 < k ==> line[..k][0] == line[0];
  }

  /** The lines of a text joined again are the text. */
  lemma {:induction false} LinesJoin(text: string)
    ensures Lines(text) != [] && Strings.Join(Lines(text), '\n') == text && Strings.Free(Lines(text), '\n')
  {
    if text != [] {
      LinesJoin(text[1..]);
      var rest := Lines(text[1..]);
      assert text == [text[0]] + text[1..];
      if text[0] == '\n' {
        assert ([""] + rest)[1..] == rest;
      } else {
        assert ([[text[0]] + rest[0]] + rest[1..])[1..] == rest[1..];
      }
    }
  }

  lemma MarkedIs(line: string)
    ensures Marked(line) <==> ReportsFailure(line)
  {
    hide TrimLeft, Opens;
    TrimmedIs(line, "There was an error interpreting " + "Starlark code");
    TrimmedIs(line, "There was an error executing Starlark code");
    TrimmedIs(line, "Error encountered running Starlark code");
  }

  /** A Starlark failure is reported exactly when one of the lines begins, after spaces, with one of
      the three marks. */
  lemma StarlarkFailedIs(lines: seq<string>)
    requires lines != [] && Strings.Free(lines, '\n')
    ensures StarlarkFailed(Strings.Join(lines, '\n')) <==> exists i :: 0 <= i < |lines| && ReportsFailure(lines[i])
  {
    hide Marked, ReportsFailure, Lines;
    LinesJoin(Strings.Join(lines, '\n'));
    Strings.JoinInjective(lines, Lines(Strings.Join(lines, '\n')), '\n');
    forall i | 0 <= i < |lines|
      ensures Marked(lines[i]) <==> ReportsFailure(lines[i])
    {
      MarkedIs(lines[i]);
    }
  }

  ghost predicate ReportsFailure(line: string) {
    || Opens(line, "There was an error interpreting " + "Starlark code")
    || Opens(line, "There was an error executing Starlark code")
    || Opens(line, "Error encountered running Starlark code")
  }

  // ---------------------------------------------------------------------------------------------
  // Run
  // ---------------------------------------------------------------------------------------------

  datatype RunOptions = RunOptions(enclave: string, args: Args, tearDownFirst: bool, maxAttempts: int, threshold: int) {
    function Attempts(): (n: nat)
      ensures 1 <= n
    {
      if maxAttempts < 1 then 1 else maxAttempts
    }
  }

  datatype RunResult = Launched | NotRemoved | LaunchFailed(err: string, bootHang: bool)

  /** May a launch that ended so be tried again? */
  predicate Retriable(r: Reply, threshold: int) {
    var a := Ended(r, threshold);
    a.Broke? && IsTransient(a, r) && !(r.cancelled && !a.bootHang) && !r.cancelledWaiting
  }

  ghost predicate MentionsTransient(text: string) {
    || Mentions(text, "signal: killed") || Mentions(text, "context deadline exceeded")
    || Mentions(text, "Error uploading package")
    || Mentions(text, "sending 'github.com/XRPL-Commons/xrpl-confluence'")
    || Mentions(text, "empty bridge network IP") || Mentions(text, "EOF")
  }

  lemma TransientMarks(text: string)
    ensures ContainsAny(text, TRANSIENT_MARKS) <==> MentionsTransient(text)
  {
    hide Contains, Mentions;
    var marks := TRANSIENT_MARKS;
    ContainsIs(text, marks[0]);
    ContainsIs(text, marks[1]);
    ContainsIs(text, marks[2]);
    ContainsIs(text, marks[3]);
    ContainsIs(text, marks[4]);
    ContainsIs(text, marks[5]);
    if ContainsAny(text, marks) {
      var mark :| mark in marks && Contains(text, mark);
      assert mark == marks[0] || mark == marks[1] || mark == marks[2] || mark == marks[3] || mark == marks[4] || mark == marks[5];
    }
  }

  /** A launch is worth a retry exactly when the armed watchdog tripped and it failed, or it failed,
      with an error or by its output alone, mentions one of the six transient causes and was not
      cancelled; and in either case nobody cancelled during the pause. */
  lemma RetriableIs(r: Reply, threshold: int)
    ensures Retriable(r, threshold) <==>
              && (r.err.Some? || StarlarkFailed(r.stdout + "\n" + r.stderr))
              && !r.cancelledWaiting
              && ((r.err.Some? && 0 < threshold && r.hung)
                  || (!r.cancelled && MentionsTransient(
                        r.stdout + "\n" + r.stderr + "\n" + if r.err.Some? then r.err.value else "Kurtosis reported a Starlark failure")))
  {
    hide StarlarkFailed, ContainsAny, MentionsTransient;
    TransientMarks(r.stdout + "\n" + r.stderr + "\n" + if r.err.Some? then r.err.value else "Kurtosis reported a Starlark failure");
  }

  datatype Story = Story(cmds: seq<Command>, result: RunResult) {
    ghost function After(cmd: Command): Story {
      Story([cmd] + cmds, result)
    }
  }

  /** What Run does from attempt number `attempt`, when its next command is number `p`. */
  ghost function RunFrom(replies: nat -> Reply, p: nat, o: RunOptions, attempt: nat): Story
    requires 1 <= attempt <= o.Attempts()
    decreases o.Attempts() - attempt, 1
  {
    if o.tearDownFirst || 1 < attempt then
      if Removed(replies(p)) then LaunchFrom(replies, p + 1, o, attempt).After(RemoveEnclave(o.enclave))
      else Story([RemoveEnclave(o.enclave)], NotRemoved)
    else LaunchFrom(replies, p, o, attempt)
  }

  ghost function LaunchFrom(replies: nat -> Reply, p: nat, o: RunOptions, attempt: nat): Story
    requires 1 <= attempt <= o.Attempts()
    decreases o.Attempts() - attempt, 0
  {
    var launch := Launch(o.enclave, o.args);
    match Ended(replies(p), o.threshold)
    case Succeeded => Story([launch], Launched)
    case Broke(err, bootHang) =>
      if attempt < o.Attempts() && Retriable(replies(p), o.threshold)
      then RunFrom(replies, p + 1, o, attempt + 1).After(launch)
      else Story([launch], LaunchFailed(err, bootHang))
  }

  /** Of the story begun after `start`, `rest` is what has not happened yet. */
  ghost predicate Continues(trace: seq<Command>, start: seq<Command>, story: Story, rest: Story) {
    start + story.cmds == trace + rest.cmds && story.result == rest.result
  }

  lemma OneMore(trace: seq<Command>, start: seq<Command>, story: Story, cmd: Command, rest: Story)
    requires Continues(trace, start, story, rest.After(cmd))
    ensures Continues(trace + [cmd], start, story, rest)
  {
    assert trace + ([cmd] + rest.cmds) == trace + [cmd] + rest.cmds;
  }

  method Run(host: Host, o: RunOptions) returns (result: RunResult)
    modifies host`trace
    ensures var story := RunFrom(host.replies, |old(host.trace)|, o, 1);
            host.trace == old(host.trace) + story.cmds && result == story.result
  {
    hide Ended, Removed, IsTransient, Continues;
    var maxAttempts := if o.maxAttempts < 1 then 1 else o.maxAttempts;
    ghost var start := host.trace;
    ghost var story := RunFrom(host.replies, |start|, o, 1);
    Begins(start, story);
    var attempt := 1;
    while attempt <= maxAttempts
      invariant 1 <= attempt <= maxAttempts == o.Attempts()
      invariant Continues(host.trace, start, story, RunFrom(host.replies, |host.trace|, o, attempt))
      decreases maxAttempts - attempt
    {
      if o.tearDownFirst || 1 < attempt {
        ghost var trace := host.trace;
        var r := host.Do(RemoveEnclave(o.enclave));
        if !Removed(r) {
          Ends(trace, start, story, RemoveEnclave(o.enclave), NotRemoved);
          return NotRemoved;
        }
        OneMore(trace, start, story, RemoveEnclave(o.enclave), LaunchFrom(host.replies, |trace| + 1, o, attempt));
      }
      ghost var trace := host.trace;
      assert Continues(trace, start, story, LaunchFrom(host.replies, |trace|, o, attempt));
      var launch := Launch(o.enclave, o.args);
      var r := host.Do(launch);
      var a := Ended(r, o.threshold);
      if a.Succeeded? {
        Ends(trace, start, story, launch, Launched);
        return Launched;
      }
      if (r.cancelled && !a.bootHang) || attempt == maxAttempts || !IsTransient(a, r) {
        Ends(trace, start, story, launch, LaunchFailed(a.err, a.bootHang));
        return LaunchFailed(a.err, a.bootHang);
      }
      if r.cancelledWaiting {
        Ends(trace, start, story, launch, LaunchFailed(a.err, a.bootHang));
        return LaunchFailed(a.err, a.bootHang);
      }
      OneMore(trace, start, story, launch, RunFrom(host.replies, |trace| + 1, o, attempt + 1));
      attempt := attempt + 1;
    }
    assert false;
    result := NotRemoved;
  }

  lemma Begins(start: seq<Command>, story: Story)
    ensures Continues(start, start, story, story)
  {
  }

  lemma Ends(trace: seq<Command>, start: seq<Command>, story: Story, cmd: Command, result: RunResult)
    requires Continues(trace, start, story, Story([cmd], result))
    ensures trace + [cmd] == start + story.cmds && story.result == result
  {
  }

  // ---------------------------------------------------------------------------------------------
  // What a run of commands may be
  // ---------------------------------------------------------------------------------------------

  ghost function Launches(cmds: seq<Command>): nat {
    if cmds == [] then 0 else (if cmds[0].Launch? then 1 else 0) + Launches(cmds[1..])
  }

  lemma {:induction false} LaunchesAfter(cmd: Command, cmds: seq<Command>)
    ensures Launches([cmd] + cmds) == Launches(cmds) + if cmd.Launch? then 1 else 0
  {
    assert ([cmd] + cmds)[1..] == cmds;
  }

  /** There are never more launches than attempts allowed, however the commands answer. */
  lemma {:induction false} LaunchesBounded(replies: nat -> Reply, p: nat, o: RunOptions, attempt: nat)
    requires 1 <= attempt <= o.Attempts()
    ensures Launches(RunFrom(replies, p, o, attempt).cmds) <= o.Attempts() - attempt + 1
    ensures attempt == 1 ==> Launches(RunFrom(replies, p, o, 1).cmds) <= (if o.maxAttempts < 1 then 1 else o.maxAttempts)
    decreases o.Attempts() - attempt
  {
    hide RunFrom, Removed, Retriable, Ended;
    Shape(replies, p, o, attempt);
    HeadLaunches(o, attempt, []);
    assert Head(o, attempt) + [] == Head(o, attempt);
    LaunchesAfter(RemoveEnclave(o.enclave), []);
    assert |Head(o, attempt)| == 2 ==> Head(o, attempt)[..1] == [RemoveEnclave(o.enclave)] + [];
    if attempt < o.Attempts() {
      var n := |Head(o, attempt)|;
      LaunchesBounded(replies, p + n, o, attempt + 1);
      HeadLaunches(o, attempt, RunFrom(replies, p + n, o, attempt + 1).cmds);
    }
  }

  /** Command `j` of a run that began with command `p` of the host is one it may issue there. */
  ghost predicate InPlace(replies: nat -> Reply, p: nat, o: RunOptions, attempt: nat, cmds: seq<Command>, j: nat)
    requires j < |cmds|
  {
    match cmds[j]
    case RemoveEnclave(e) =>
      e == o.enclave && if j == 0 then o.tearDownFirst || 1 < attempt
                        else cmds[j - 1].Launch? && Retriable(replies(p + j - 1), o.threshold)
    case Launch(e, args) =>
      e == o.enclave && args == o.args && if j == 0 then !o.tearDownFirst && attempt == 1
                        else cmds[j - 1].RemoveEnclave? && Removed(replies(p + j - 1))
    case _ => false
  }

  /** The commands of one attempt, unless its removal fails. */
  ghost function Head(o: RunOptions, attempt: nat): seq<Command> {
    (if o.tearDownFirst || 1 < attempt then [RemoveEnclave(o.enclave)] else []) + [Launch(o.enclave, o.args)]
  }

  /** An attempt fails at its removal, or ends the run with its launch, or is followed by a retry. */
  lemma Shape(replies: nat -> Reply, p: nat, o: RunOptions, attempt: nat)
    requires 1 <= attempt <= o.Attempts()
    ensures var head, story := Head(o, attempt), RunFrom(replies, p, o, attempt);
            var last := replies(p + |head| - 1);
            || (|head| == 2 && !Removed(replies(p)) && story == Story(head[..1], NotRemoved))
            || ((|head| == 2 ==> Removed(replies(p))) && story == Story(head, ResultOf(last, o.threshold))
                && (story.result.LaunchFailed? ==> attempt == o.Attempts() || !Retriable(last, o.threshold)))
            || ((|head| == 2 ==> Removed(replies(p))) && attempt < o.Attempts() && Retriable(last, o.threshold)
                && var next := RunFrom(replies, p + |head|, o, attempt + 1);
                   story == Story(head + next.cmds, next.result))
  {
    hide Ended, Removed, Retriable;
  }

  ghost function ResultOf(r: Reply, threshold: int): RunResult {
    match Ended(r, threshold)
    case Succeeded => Launched
    case Broke(err, bootHang) => LaunchFailed(err, bootHang)
  }

  /** A run begins with a removal exactly if one was asked for, and otherwise with a launch. */
  lemma RunBegins(replies: nat -> Reply, p: nat, o: RunOptions)
    ensures var cmds := RunFrom(replies, p, o, 1).cmds;
            cmds != [] && cmds[0] == if o.tearDownFirst then RemoveEnclave(o.enclave) else Launch(o.enclave, o.args)
  {
    hide RunFrom, Removed, Retriable, Ended;
    Shape(replies, p, o, 1);
  }

  /** Removals and launches of this enclave alternate, and nothing else happens. A launch comes first
      of all or right after a removal that succeeded; a removal first, if asked for, or right after
      a launch that failed in a way worth a retry. */
  lemma {:induction false} CommandsInPlace(replies: nat -> Reply, p: nat, o: RunOptions, attempt: nat, j: nat)
    requires 1 <= attempt <= o.Attempts()
    requires j < |RunFrom(replies, p, o, attempt).cmds|
    ensures InPlace(replies, p, o, attempt, RunFrom(replies, p, o, attempt).cmds, j)
    decreases o.Attempts() - attempt
  {
    hide Removed, Retriable, RunFrom;
    Shape(replies, p, o, attempt);
    var cmds, n := RunFrom(replies, p, o, attempt).cmds, |Head(o, attempt)|;
    if n <= j {
      var next := RunFrom(replies, p + n, o, attempt + 1).cmds;
      CommandsInPlace(replies, p + n, o, attempt + 1, j - n);
      assert cmds[j] == next[j - n];
      if n < j {
        assert cmds[j - 1] == next[j - n - 1];
        assert p + n + (j - n) - 1 == p + j - 1;
      }
    }
  }

  /** The run ends as its last command does: well only if that was a launch with neither an error
      nor a Starlark failure in its output. */
  lemma {:induction false} ResultOfLast(replies: nat -> Reply, p: nat, o: RunOptions, attempt: nat)
    requires 1 <= attempt <= o.Attempts()
    ensures var story := RunFrom(replies, p, o, attempt);
            && story.cmds != []
            && var last, r := story.cmds[|story.cmds| - 1], replies(p + |story.cmds| - 1);
               match story.result
               case Launched => last.Launch? && r.err.None? && !StarlarkFailed(r.stdout + "\n" + r.stderr)
               case NotRemoved => last.RemoveEnclave? && !Removed(r)
               case LaunchFailed(err, bootHang) =>
                 && last.Launch? && (bootHang <==> r.err.Some? && 0 < o.threshold && r.hung)
                 && (r.err == Some(err)
                     || (r.err == None && StarlarkFailed(r.stdout + "\n" + r.stderr) && err == "Kurtosis reported a Starlark failure"))
    decreases o.Attempts() - attempt
  {
    hide RunFrom, StarlarkFailed, Removed, Retriable;
    Shape(replies, p, o, attempt);
    if attempt < o.Attempts() {
      var n := |Head(o, attempt)|;
      ResultOfLast(replies, p + n, o, attempt + 1);
      var next := RunFrom(replies, p + n, o, attempt + 1).cmds;
      assert p + |Head(o, attempt) + next| - 1 == p + n + |next| - 1;
    }
  }

  /** A failed launch is given up only when there is no attempt left or it is not worth a retry. */
  lemma {:induction false} GivesUpForCause(replies: nat -> Reply, p: nat, o: RunOptions, attempt: nat)
    requires 1 <= attempt <= o.Attempts()
    ensures var story := RunFrom(replies, p, o, attempt);
            && story.cmds != []
            && (story.result.LaunchFailed? ==>
                  Launches(story.cmds) == o.Attempts() - attempt + 1
                  || !Retriable(replies(p + |story.cmds| - 1), o.threshold))
            && (attempt == 1 && story.result.LaunchFailed? ==>
                  Launches(story.cmds) == (if o.maxAttempts < 1 then 1 else o.maxAttempts)
                  || !Retriable(replies(p + |story.cmds| - 1), o.threshold))
    decreases o.Attempts() - attempt
  {
    hide RunFrom, Retriable, Ended, Removed;
    Shape(replies, p, o, attempt);
    HeadLaunches(o, attempt, []);
    assert Head(o, attempt) + [] == Head(o, attempt);
    if attempt < o.Attempts() {
      var n := |Head(o, attempt)|;
      GivesUpForCause(replies, p + n, o, attempt + 1);
      var next := RunFrom(replies, p + n, o, attempt + 1).cmds;
      HeadLaunches(o, attempt, next);
      assert p + |Head(o, attempt) + next| - 1 == p + n + |next| - 1;
    }
  }

  lemma HeadLaunches(o: RunOptions, attempt: nat, cmds: seq<Command>)
    ensures Launches(Head(o, attempt) + cmds) == 1 + Launches(cmds)
  {
    var launch, remove := Launch(o.enclave, o.args), RemoveEnclave(o.enclave);
    LaunchesAfter(launch, cmds);
    LaunchesAfter(remove, [launch] + cmds);
    assert Head(o, attempt) + cmds == if |Head(o, attempt)| == 2 then [remove] + ([launch] + cmds) else [launch] + cmds;
  }
}
