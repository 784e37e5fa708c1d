/** Booting a scenario: the commands issued from its flags to its launch and inspection. */
module Boot {
  import opened KurtosisRun
  import Text
  import opened Wrappers

  /** A scenario as loaded. `compiled` and `recompiled` are what compiling it yields at the resume
      check and after the images are set; loading, validation and the files may fail. The control
      service is polled `polls` + 1 times, until it is healthy or not waited for any longer. */
  datatype Scenario = Scenario(loads: bool, valid: bool, name: string, networkOnly: bool, rippled: nat, goxrpl: nat,
                               rippledImage: string, goxrplImage: string,
                               compiled: Option<Args>, recompiled: Option<Args>,
                               forgets: bool, writesNetwork: bool, writesCurrent: bool,
                               polls: nat, healthy: bool)

  datatype BootOptions = BootOptions(enclave: string, tearDownFirst: bool, threshold: int,
                                     rebuildGoxrpl: string, rebuildRippled: string,
                                     resume: bool, reset: bool, waitNetwork: int)

  function EnclaveOf(s: Scenario, o: BootOptions): string {
    if o.enclave == "" then s.name else o.enclave
  }

  const FIXED_FIELDS := ["rippled_count", "goxrpl_count", "network_config", "enable_dashboard", "enable_control"]

  function Field(args: Args, name: string): Option<Value> {
    if name in args then Some(args[name]) else None
  }

  predicate Compatible(previous: Args, next: Args) {
    forall f :: f in FIXED_FIELDS ==> Field(previous, f) == Field(next, f)
  }

  ghost predicate SameField(previous: Args, next: Args, f: string) {
    (f in previous <==> f in next) && (f in previous ==> previous[f] == next[f])
  }

  /** The same topology, genesis and services. */
  ghost predicate SameNetwork(previous: Args, next: Args) {
    && SameField(previous, next, "rippled_count") && SameField(previous, next, "goxrpl_count")
    && SameField(previous, next, "network_config")
    && SameField(previous, next, "enable_dashboard") && SameField(previous, next, "enable_control")
  }

  lemma CompatibleIs(previous: Args, next: Args)
    ensures Compatible(previous, next) <==> SameNetwork(previous, next)
  {
    var fields := FIXED_FIELDS;
    assert fields[0] in fields && fields[1] in fields && fields[2] in fields && fields[3] in fields && fields[4] in fields;
    forall f | f in fields
      ensures Field(previous, f) == Field(next, f) <==> SameField(previous, next, f)
    {
    }
    if SameNetwork(previous, next) {
      forall f | f in fields
        ensures SameField(previous, next, f)
      {
        assert f == fields[0] || f == fields[1] || f == fields[2] || f == fields[3] || f == fields[4];
      }
    }
  }

  method CompatibleNetwork(previous: Args, next: Args) returns (ok: bool)
    ensures ok <==> Compatible(previous, next)
    ensures ok <==> SameNetwork(previous, next)
  {
    CompatibleIs(previous, next);
    for i := 0 to |FIXED_FIELDS|
      invariant forall j :: 0 <= j < i ==> Field(previous, FIXED_FIELDS[j]) == Field(next, FIXED_FIELDS[j])
    {
      if Field(previous, FIXED_FIELDS[i]) != Field(next, FIXED_FIELDS[i]) {
        return false;
      }
    }
    ok := true;
  }

  /** The compiled arguments with the readiness timeout, in seconds, and the resume switches. */
  function NetworkRunArgs(args: Args, o: BootOptions): Args {
    args["network_ready_timeout_seconds" := Number(if o.waitNetwork == 0 then 180 else o.waitNetwork)]
        ["network_resume" := Flag(o.resume)]["network_force_update" := Flag(o.resume)]
  }

  /** A service is on unless it is switched off. */
  function ServiceEnabled(args: Args, field: string): bool {
    !(field in args && args[field] == Flag(false))
  }

  function Threshold(s: Scenario, o: BootOptions): int {
    if s.networkOnly && 0 < o.threshold < o.waitNetwork + 60 then o.waitNetwork + 60 else o.threshold
  }

  function RunOptionsOf(s: Scenario, o: BootOptions, args: Args): RunOptions {
    RunOptions(EnclaveOf(s, o), args, o.tearDownFirst && !s.networkOnly, if s.networkOnly then 1 else 3, Threshold(s, o))
  }

  // ---------------------------------------------------------------------------------------------
  // What each part of a boot does
  // ---------------------------------------------------------------------------------------------

  /** Commands issued, and whether to go on. */
  datatype Leg = Leg(cmds: seq<Command>, ok: bool)

  /** Flags that are refused before any command is issued. */
  predicate Refused(s: Scenario, o: BootOptions) {
    || !s.loads || !s.valid || EnclaveOf(s, o) == ""
    || ((o.resume || o.reset) && !s.networkOnly)
    || (o.resume && o.reset && s.networkOnly)
  }

  /** May the network go ahead, given whether its enclave exists? */
  predicate LifecycleAllows(s: Scenario, o: BootOptions, exists_: bool, saved: map<string, Args>) {
    if o.resume then
      && s.goxrpl == 0 && exists_ && EnclaveOf(s, o) in saved && s.compiled.Some?
      && Compatible(saved[EnclaveOf(s, o)], s.compiled.value)
    else !exists_ || o.reset
  }

  ghost function LifecycleLeg(s: Scenario, o: BootOptions, saved: map<string, Args>, replies: nat -> Reply, p: nat): Leg {
    if !s.networkOnly then Leg([], true)
    else Leg([ListEnclaves], replies(p).err.None? && LifecycleAllows(s, o, EnclaveOf(s, o) in replies(p).names, saved))
  }

  function Tag(image: string, other: string): string {
    if image == "" then other else image
  }

  ghost function BuildLeg(dir: string, tag: string, replies: nat -> Reply, p: nat): Leg {
    if dir == "" then Leg([], true) else Leg([BuildImage(dir, tag)], replies(p).err.None?)
  }

  ghost function ResetLeg(s: Scenario, o: BootOptions, replies: nat -> Reply, p: nat): Leg {
    if s.networkOnly && o.reset then Leg([RemoveEnclave(EnclaveOf(s, o))], Removed(replies(p)) && s.forgets) else Leg([], true)
  }

  /** Lets one leg follow another. */
  ghost function Then(leg: Leg, next: Leg): Leg {
    if leg.ok then Leg(leg.cmds + next.cmds, next.ok) else leg
  }

  ghost function Checks(s: Scenario, o: BootOptions, saved: map<string, Args>, replies: nat -> Reply, p: nat): Leg {
    if Refused(s, o) then Leg([], false) else LifecycleLeg(s, o, saved, replies, p)
  }

  ghost function Builds(s: Scenario, o: BootOptions, replies: nat -> Reply, p: nat): Leg {
    var a := BuildLeg(o.rebuildGoxrpl, Tag(s.goxrplImage, "goxrpl:latest"), replies, p);
    Then(a, BuildLeg(o.rebuildRippled, Tag(s.rippledImage, "rippled:latest"), replies, p + |a.cmds|))
  }

  ghost function Writes(s: Scenario, o: BootOptions, replies: nat -> Reply, p: nat): Leg {
    if s.recompiled.None? then Leg([], false)
    else Then(ResetLeg(s, o, replies, p), Leg([], s.networkOnly ==> s.writesNetwork))
  }

  /** All that may come before the launch. */
  ghost function BeforeLaunch(s: Scenario, o: BootOptions, saved: map<string, Args>, replies: nat -> Reply, p: nat): Leg {
    var a := Checks(s, o, saved, replies, p);
    var b := Then(a, Builds(s, o, replies, p + |a.cmds|));
    Then(b, Writes(s, o, replies, p + |b.cmds|))
  }

  ghost function ArgsOf(s: Scenario, o: BootOptions): Args
    requires s.recompiled.Some?
  {
    if s.networkOnly then NetworkRunArgs(s.recompiled.value, o) else s.recompiled.value
  }

  /** Up to and including the launch. */
  ghost function UpToLaunch(s: Scenario, o: BootOptions, saved: map<string, Args>, replies: nat -> Reply, p: nat): Leg {
    var before := BeforeLaunch(s, o, saved, replies, p);
    if !before.ok || s.recompiled.None? then before
    else
      var story := RunFrom(replies, p + |before.cmds|, RunOptionsOf(s, o, ArgsOf(s, o)), 1);
      Leg(before.cmds + story.cmds, story.result.Launched?)
  }

  function Repeat(service: string, count: nat): seq<string> {
    if count == 0 then [] else Repeat(service, count - 1) + [service]
  }

  function Numbered(group: string, count: nat): seq<string> {
    if count == 0 then [] else Numbered(group, count - 1) + [group + "-" + Text.Decimal(count - 1)]
  }

  function ControlServices(s: Scenario, args: Args): seq<string> {
    if ServiceEnabled(args, "enable_control") then Repeat("confluence-control", s.polls + 1) else []
  }

  function NetworkServices(s: Scenario, args: Args): seq<string> {
    if s.networkOnly then
      Numbered("rippled", s.rippled) + Numbered("goxrpl", s.goxrpl)
      + if ServiceEnabled(args, "enable_dashboard") then ["dashboard"] else []
    else []
  }

  /** The services a boot inspects after its launch, in order. */
  function Inspected(s: Scenario, args: Args): seq<string> {
    ControlServices(s, args) + NetworkServices(s, args)
  }

  ghost function Inspections(enclave: string, services: seq<string>): (cmds: seq<Command>)
    ensures |cmds| == |services|
    ensures forall i :: 0 <= i < |cmds| ==> cmds[i] == Inspect(enclave, services[i])
  {
    seq(|services|, i requires 0 <= i < |services| => Inspect(enclave, services[i]))
  }

  // ---------------------------------------------------------------------------------------------
  // The boot
  // ---------------------------------------------------------------------------------------------

  method CheckNetworkLifecycle(host: Host, s: Scenario, o: BootOptions) returns (ok: bool)
    requires s.networkOnly
    modifies host`trace
    ensures if o.resume && o.reset then host.trace == old(host.trace) && !ok
            else var leg := LifecycleLeg(s, o, host.saved, host.replies, |old(host.trace)|);
                 host.trace == old(host.trace) + leg.cmds && ok == leg.ok
  {
    if o.resume && o.reset {
      return false;
    }
    var enclave := EnclaveOf(s, o);
    var r := host.Do(ListEnclaves);
    if r.err.Some? {
      return false;
    }
    var found := false;
    for i := 0 to |r.names|
      invariant !found && enclave !in r.names[..i]
    {
      if r.names[i] == enclave {
        found := true;
        break;
      }
    }
    assert found <==> enclave in r.names by {
      assert r.names[..|r.names|] == r.names;
    }
    if o.resume {
      if s.goxrpl != 0 || !found || enclave !in host.saved || s.compiled.None? {
        return false;
      }
      ok := CompatibleNetwork(host.saved[enclave], s.compiled.value);
      return;
    }
    ok := !(found && !o.reset);
  }

  method Rebuild(host: Host, dir: string, tag: string) returns (ok: bool)
    modifies host`trace
    ensures var leg := BuildLeg(dir, tag, host.replies, |old(host.trace)|);
            host.trace == old(host.trace) + leg.cmds && ok == leg.ok
  {
    if dir == "" {
      return true;
    }
    var r := host.Do(BuildImage(dir, tag));
    ok := r.err.None?;
  }

  method Check(host: Host, s: Scenario, o: BootOptions) returns (ok: bool)
    modifies host`trace
    ensures var leg := Checks(s, o, host.saved, host.replies, |old(host.trace)|);
            host.trace == old(host.trace) + leg.cmds && ok == leg.ok
  {
    hide LifecycleAllows;
    if !s.loads || !s.valid {
      return false;
    }
    var enclave := if o.enclave == "" then s.name else o.enclave;
    if enclave == "" || ((o.resume || o.reset) && !s.networkOnly) {
      return false;
    }
    if s.networkOnly {
      ok := CheckNetworkLifecycle(host, s, o);
      return;
    }
    ok := true;
  }

  method RebuildImages(host: Host, s: Scenario, o: BootOptions) returns (ok: bool)
    modifies host`trace
    ensures var leg := Builds(s, o, host.replies, |old(host.trace)|);
            host.trace == old(host.trace) + leg.cmds && ok == leg.ok
  {
    ok := Rebuild(host, o.rebuildGoxrpl, Tag(s.goxrplImage, "goxrpl:latest"));
    if ok {
      ok := Rebuild(host, o.rebuildRippled, Tag(s.rippledImage, "rippled:latest"));
    }
  }

  /** Resets the enclave if asked, and saves what a later resume is checked against. */
  method Write(host: Host, s: Scenario, o: BootOptions) returns (args: Option<Args>)
    modifies host`trace, host`saved
    ensures var leg := Writes(s, o, host.replies, |old(host.trace)|);
            && host.trace == old(host.trace) + leg.cmds
            && (args.Some? <==> leg.ok)
            && (leg.ok ==> s.recompiled.Some? && args.value == ArgsOf(s, o))
            && host.saved == if leg.ok && s.networkOnly then old(host.saved)[EnclaveOf(s, o) := ArgsOf(s, o)]
                             else old(host.saved)
  {
    hide Removed, NetworkRunArgs;
    if s.recompiled.None? || !s.networkOnly {
      return s.recompiled;
    }
    args := Some(NetworkRunArgs(s.recompiled.value, o));
    if o.reset {
      var r := host.Do(RemoveEnclave(EnclaveOf(s, o)));
      if !Removed(r) || !s.forgets {
        return None;
      }
    }
    if !s.writesNetwork {
      return None;
    }
    host.saved := host.saved[EnclaveOf(s, o) := args.value];
  }

  /** Everything that precedes the launch. The network is saved last, and whatever the launch then
      does. */
  method Prepare(host: Host, s: Scenario, o: BootOptions) returns (args: Option<Args>)
    modifies host`trace, host`saved
    ensures var leg := BeforeLaunch(s, o, old(host.saved), host.replies, |old(host.trace)|);
            && host.trace == old(host.trace) + leg.cmds
            && (args.Some? <==> leg.ok)
            && (leg.ok ==> s.recompiled.Some? && args.value == ArgsOf(s, o))
            && host.saved == if leg.ok && s.networkOnly then old(host.saved)[EnclaveOf(s, o) := ArgsOf(s, o)]
                             else old(host.saved)
  {
    hide Checks, Builds, Writes, ArgsOf, EnclaveOf;
    var ok := Check(host, s, o);
    if !ok {
      return None;
    }
    ok := RebuildImages(host, s, o);
    if !ok {
      return None;
    }
    args := Write(host, s, o);
  }

  /** The `n` commands from number `p` on were all answered well. */
  ghost predicate Answered(replies: nat -> Reply, p: nat, n: nat) {
    forall q: nat :: p <= q < p + n ==> replies(q).err.None?
  }

  /** Inspects services one after another, up to the first that cannot be. */
  method InspectEach(host: Host, enclave: string, services: seq<string>, patient: bool) returns (ok: bool, ghost k: nat)
    modifies host`trace
    ensures k <= |services| && host.trace == old(host.trace) + Inspections(enclave, services[..k])
    ensures ok <==> patient || Answered(host.replies, |old(host.trace)|, |services|)
    ensures ok ==> k == |services|
    ensures !ok ==> 0 < k && Answered(host.replies, |old(host.trace)|, k - 1) && host.replies(|old(host.trace)| + k - 1).err.Some?
  {
    k := 0;
    for i := 0 to |services|
      invariant k == i
      invariant patient || Answered(host.replies, |old(host.trace)|, i)
      invariant host.trace == old(host.trace) + Inspections(enclave, services[..i])
    {
      var r := host.Do(Inspect(enclave, services[i]));
      k := i + 1;
      assert services[..i + 1] == services[..i] + [services[i]];
      if r.err.Some? && !patient {
        return false, k;
      }
    }
    ok := true;
  }

  /** The control service, if there is one, turned out healthy, each other service was found, and
      where to find them was written down. */
  ghost predicate Discovered(s: Scenario, args: Args, replies: nat -> Reply, p: nat) {
    && (ServiceEnabled(args, "enable_control") ==> s.healthy)
    && Answered(replies, p + |ControlServices(s, args)|, |NetworkServices(s, args)|)
    && s.writesCurrent
  }

  /** After `k` inspections a boot is through with them, has given up on the control service, or did
      not find the service inspected last. */
  ghost predicate StopsAt(s: Scenario, args: Args, replies: nat -> Reply, p: nat, k: nat) {
    var waits := |ControlServices(s, args)|;
    if ServiceEnabled(args, "enable_control") && !s.healthy then k == waits
    else if Answered(replies, p + waits, |NetworkServices(s, args)|) then k == |Inspected(s, args)|
    else waits < k && Answered(replies, p + waits, k - waits - 1) && replies(p + k - 1).err.Some?
  }

  /** Waits for the control service, which may be slow to answer, then looks up the network's own. */
  method Discover(host: Host, s: Scenario, enclave: string, args: Args) returns (ok: bool, ghost k: nat)
    modifies host`trace
    ensures k <= |Inspected(s, args)| && host.trace == old(host.trace) + Inspections(enclave, Inspected(s, args)[..k])
    ensures ok <==> Discovered(s, args, host.replies, |old(host.trace)|)
    ensures StopsAt(s, args, host.replies, |old(host.trace)|, k)
  {
    hide ControlServices, NetworkServices, Inspections;
    ghost var start := host.trace;
    var control, own := ControlServices(s, args), NetworkServices(s, args);
    ok, k := InspectEach(host, enclave, control, true);
    assert Inspected(s, args)[..k] == control[..k];
    if ServiceEnabled(args, "enable_control") && !s.healthy {
      return false, k;
    }
    ghost var l;
    ok, l := InspectEach(host, enclave, own, false);
    TwoParts(enclave, control, own, l);
    assert host.trace == start + (Inspections(enclave, control[..|control|]) + Inspections(enclave, own[..l]));
    k := |control| + l;
    ok := ok && s.writesCurrent;
  }

  lemma TwoParts(enclave: string, a: seq<string>, b: seq<string>, l: nat)
    requires l <= |b|
    ensures Inspections(enclave, (a + b)[..|a| + l]) == Inspections(enclave, a[..|a|]) + Inspections(enclave, b[..l])
  {
    assert (a + b)[..|a| + l] == a + b[..l];
  }

  /** A boot is its preparations, its launch and, if that went well, its inspections; it succeeds
      only with all of them done. */
  method Boot(host: Host, s: Scenario, o: BootOptions) returns (ok: bool, ghost k: nat)
    modifies host`trace, host`saved
    ensures var leg := UpToLaunch(s, o, old(host.saved), host.replies, |old(host.trace)|);
            && (leg.ok ==> s.recompiled.Some? && k <= |Inspected(s, ArgsOf(s, o))|)
            && host.trace == old(host.trace) + leg.cmds +
                 (if leg.ok then Inspections(EnclaveOf(s, o), Inspected(s, ArgsOf(s, o))[..k]) else [])
            && (ok <==> leg.ok && Discovered(s, ArgsOf(s, o), host.replies, |old(host.trace)| + |leg.cmds|))
            && (leg.ok ==> StopsAt(s, ArgsOf(s, o), host.replies, |old(host.trace)| + |leg.cmds|, k))
    ensures var leg := BeforeLaunch(s, o, old(host.saved), host.replies, |old(host.trace)|);
            host.saved == if leg.ok && s.networkOnly then old(host.saved)[EnclaveOf(s, o) := ArgsOf(s, o)]
                          else old(host.saved)
  {
    hide BeforeLaunch, Inspected, Inspections, RunFrom, RunOptionsOf, ArgsOf, EnclaveOf, Discovered, StopsAt;
    k := 0;
    ghost var start := host.trace;
    var args := Prepare(host, s, o);
    if args.None? {
      return false, k;
    }
    ghost var before := BeforeLaunch(s, o, old(host.saved), host.replies, |start|);
    assert |host.trace| == |start| + |before.cmds|;
    var result := Run(host, RunOptionsOf(s, o, args.value));
    ghost var leg := UpToLaunch(s, o, old(host.saved), host.replies, |start|);
    assert host.trace == start + leg.cmds;
    if !result.Launched? {
      return false, k;
    }
    ok, k := Discover(host, s, EnclaveOf(s, o), args.value);
  }

  // ---------------------------------------------------------------------------------------------
  // What a boot may do to an enclave
  // ---------------------------------------------------------------------------------------------

  /** The enclave asked for, or else that of the scenario. */
  ghost predicate IsOwn(s: Scenario, o: BootOptions, enclave: string) {
    || (o.enclave != "" && enclave == o.enclave)
    || (o.enclave == "" && enclave == s.name)
  }

  /** Command `j` is one a boot may issue there. */
  ghost predicate Permitted(s: Scenario, o: BootOptions, replies: nat -> Reply, p: nat, cmds: seq<Command>, j: nat)
    requires j < |cmds|
  {
    match cmds[j]
    case ListEnclaves => j == 0 && s.networkOnly
    case BuildImage(dir, _) => dir != "" && (dir == o.rebuildGoxrpl || dir == o.rebuildRippled)
    case RemoveEnclave(e) =>
      && IsOwn(s, o, e)
      && if s.networkOnly then o.reset && !o.resume
         else o.tearDownFirst || (0 < j && cmds[j - 1].Launch? && Retriable(replies(p + j - 1), o.threshold))
    case Launch(e, args) =>
      && IsOwn(s, o, e) && s.recompiled.Some? && args == ArgsOf(s, o)
      && (s.networkOnly ==> j == |cmds| - 1)
    case Inspect(_, _) => false
  }

  ghost predicate Early(s: Scenario, o: BootOptions, cmd: Command) {
    match cmd
    case ListEnclaves => s.networkOnly
    case BuildImage(dir, _) => dir != "" && (dir == o.rebuildGoxrpl || dir == o.rebuildRippled)
    case RemoveEnclave(e) => IsOwn(s, o, e) && s.networkOnly && o.reset && !o.resume
    case _ => false
  }

  lemma ChecksEarly(s: Scenario, o: BootOptions, saved: map<string, Args>, replies: nat -> Reply, p: nat)
    ensures var leg := Checks(s, o, saved, replies, p);
            |leg.cmds| <= 1 && (leg.cmds != [] ==> s.networkOnly && leg.cmds[0].ListEnclaves?)
  {
    hide LifecycleAllows;
  }

  lemma BuildsEarly(s: Scenario, o: BootOptions, replies: nat -> Reply, p: nat)
    ensures forall cmd :: cmd in Builds(s, o, replies, p).cmds ==> cmd.BuildImage? && Early(s, o, cmd)
  {
    hide Tag;
  }

  lemma WritesEarly(s: Scenario, o: BootOptions, replies: nat -> Reply, p: nat)
    requires !Refused(s, o)
    ensures forall cmd :: cmd in Writes(s, o, replies, p).cmds ==> cmd.RemoveEnclave? && Early(s, o, cmd)
  {
    hide Removed;
  }

  /** Before the launch the enclaves are listed, first of all and only for a network, images are
      built, and the enclave is removed only by a reset. */
  lemma EarlyCommands(s: Scenario, o: BootOptions, saved: map<string, Args>, replies: nat -> Reply, p: nat, j: nat)
    requires j < |BeforeLaunch(s, o, saved, replies, p).cmds|
    ensures var cmds := BeforeLaunch(s, o, saved, replies, p).cmds;
            Early(s, o, cmds[j]) && (cmds[j].ListEnclaves? ==> j == 0)
  {
    RefusedStops(s, o, saved, replies, p);
    hide Checks, Builds, Writes, Refused;
    var a := Checks(s, o, saved, replies, p);
    var b := Builds(s, o, replies, p + |a.cmds|);
    ChecksEarly(s, o, saved, replies, p);
    BuildsEarly(s, o, replies, p + |a.cmds|);
    var ab := Then(a, b);
    if ab.ok {
      WritesEarly(s, o, replies, p + |ab.cmds|);
    }
    var cmds, w := BeforeLaunch(s, o, saved, replies, p).cmds, Writes(s, o, replies, p + |ab.cmds|).cmds;
    if j < |a.cmds| {
      assert cmds[j] == a.cmds[0];
    } else if j < |ab.cmds| {
      assert cmds[j] == ab.cmds[j] == b.cmds[j - |a.cmds|];
      assert cmds[j] in b.cmds;
    } else {
      assert cmds[j] == w[j - |ab.cmds|];
      assert cmds[j] in w;
    }
  }

  lemma RefusedStops(s: Scenario, o: BootOptions, saved: map<string, Args>, replies: nat -> Reply, p: nat)
    ensures Checks(s, o, saved, replies, p).ok ==> !Refused(s, o)
  {
  }

  lemma RefusedIssuesNothing(s: Scenario, o: BootOptions, saved: map<string, Args>, replies: nat -> Reply, p: nat)
    requires Refused(s, o)
    ensures UpToLaunch(s, o, saved, replies, p) == Leg([], false)
  {
  }

  /** A network is launched once, with nothing removed on the way. */
  lemma NetworkLaunchesOnce(s: Scenario, o: BootOptions, args: Args, replies: nat -> Reply, p: nat)
    requires s.networkOnly
    ensures RunFrom(replies, p, RunOptionsOf(s, o, args), 1).cmds == [Launch(EnclaveOf(s, o), args)]
  {
    hide Ended, Removed, Retriable;
  }

  lemma LaunchCommands(s: Scenario, o: BootOptions, replies: nat -> Reply, p: nat, j: nat)
    requires s.recompiled.Some? && j < |RunFrom(replies, p, RunOptionsOf(s, o, ArgsOf(s, o)), 1).cmds|
    ensures var cmds := RunFrom(replies, p, RunOptionsOf(s, o, ArgsOf(s, o)), 1).cmds;
            Permitted(s, o, replies, p, cmds, j) && (cmds[j].RemoveEnclave? || cmds[j].Launch?)
  {
    hide Ended, Removed, Retriable, ArgsOf;
    CommandsInPlace(replies, p, RunOptionsOf(s, o, ArgsOf(s, o)), 1, j);
    if s.networkOnly {
      NetworkLaunchesOnce(s, o, ArgsOf(s, o), replies, p);
    }
  }

  /** Every command of a boot is permitted: no enclave but its own is touched, and that is removed
      only on request (a reset of a network, a tear-down of another scenario) or right after a
      launch of its own that failed in a way worth a retry. */
  lemma BootIsPermitted(s: Scenario, o: BootOptions, saved: map<string, Args>, replies: nat -> Reply, p: nat, j: nat)
    requires j < |UpToLaunch(s, o, saved, replies, p).cmds|
    ensures Permitted(s, o, replies, p, UpToLaunch(s, o, saved, replies, p).cmds, j)
  {
    hide BeforeLaunch, RunFrom, RunOptionsOf, Retriable, ArgsOf, EnclaveOf;
    var cmds := UpToLaunch(s, o, saved, replies, p).cmds;
    var before := BeforeLaunch(s, o, saved, replies, p);
    var n := |before.cmds|;
    if j < n {
      EarlyCommands(s, o, saved, replies, p, j);
    } else {
      var run := RunFrom(replies, p + n, RunOptionsOf(s, o, ArgsOf(s, o)), 1).cmds;
      LaunchCommands(s, o, replies, p + n, j - n);
      assert cmds == before.cmds + run;
      assert cmds[j] == run[j - n];
      if n < j {
        assert cmds[j - 1] == run[j - n - 1];
        assert p + n + (j - n) - 1 == p + j - 1;
      }
    }
  }

  /** A resume never removes the enclave and launches it at most once. */
  lemma ResumeKeepsEnclave(s: Scenario, o: BootOptions, saved: map<string, Args>, replies: nat -> Reply, p: nat, j: nat)
    requires o.resume && j < |UpToLaunch(s, o, saved, replies, p).cmds|
    ensures var cmds := UpToLaunch(s, o, saved, replies, p).cmds;
            !cmds[j].RemoveEnclave? && (cmds[j].Launch? ==> j == |cmds| - 1)
  {
    hide UpToLaunch;
    if !s.networkOnly {
      RefusedIssuesNothing(s, o, saved, replies, p);
      assert false;
    } else {
      BootIsPermitted(s, o, saved, replies, p, j);
    }
  }

  /** With neither flag an existing network is left alone: it is seen in the list, and that is all. */
  lemma ExistingNetworkIsLeft(s: Scenario, o: BootOptions, saved: map<string, Args>, replies: nat -> Reply, p: nat)
    requires !Refused(s, o) && s.networkOnly && !o.resume && !o.reset
    requires replies(p).err.None? && EnclaveOf(s, o) in replies(p).names
    ensures UpToLaunch(s, o, saved, replies, p) == Leg([ListEnclaves], false)
  {
  }

  ghost predicate LaunchedClean(s: Scenario, o: BootOptions, replies: nat -> Reply, p: nat, cmds: seq<Command>) {
    && s.recompiled.Some? && cmds != []
    && cmds[|cmds| - 1] == Launch(EnclaveOf(s, o), ArgsOf(s, o))
    && var r := replies(p + |cmds| - 1);
       r.err.None? && !StarlarkFailed(r.stdout + "\n" + r.stderr)
  }

  lemma Prepared(s: Scenario, o: BootOptions, saved: map<string, Args>, replies: nat -> Reply, p: nat)
    ensures BeforeLaunch(s, o, saved, replies, p).ok ==> s.recompiled.Some?
  {
  }

  /** The launch, with its retries, as command `q` and those after it. */
  lemma LaunchPart(s: Scenario, o: BootOptions, replies: nat -> Reply, q: nat)
    requires s.recompiled.Some?
    ensures var story := RunFrom(replies, q, RunOptionsOf(s, o, ArgsOf(s, o)), 1);
            && Launches(story.cmds) <= (if s.networkOnly then 1 else 3)
            && (story.result.Launched? ==> LaunchedClean(s, o, replies, q, story.cmds))
  {
    hide RunFrom, StarlarkFailed, ArgsOf, Launches, Retriable, Removed;
    var options := RunOptionsOf(s, o, ArgsOf(s, o));
    var story := RunFrom(replies, q, options, 1);
    LaunchesBounded(replies, q, options, 1);
    ResultOfLast(replies, q, options, 1);
    if story.result.Launched? {
      CommandsInPlace(replies, q, options, 1, |story.cmds| - 1);
    }
  }

  /** However it is asked, a boot launches at most three times, a network once; and it goes on only
      after a launch, its last command, that neither failed nor reported a Starlark failure. */
  lemma BootLaunches(s: Scenario, o: BootOptions, saved: map<string, Args>, replies: nat -> Reply, p: nat)
    ensures var leg := UpToLaunch(s, o, saved, replies, p);
            && Launches(leg.cmds) <= (if s.networkOnly then 1 else 3)
            && (leg.ok ==> LaunchedClean(s, o, replies, p, leg.cmds))
  {
    Prepared(s, o, saved, replies, p);
    hide BeforeLaunch, RunFrom, StarlarkFailed, ArgsOf, RunOptionsOf, EnclaveOf;
    var before := BeforeLaunch(s, o, saved, replies, p);
    NoneLaunched(s, o, saved, replies, p, []);
    assert before.cmds + [] == before.cmds;
    if before.ok && s.recompiled.Some? {
      var n := |before.cmds|;
      var story := RunFrom(replies, p + n, RunOptionsOf(s, o, ArgsOf(s, o)), 1);
      NoneLaunched(s, o, saved, replies, p, story.cmds);
      LaunchPart(s, o, replies, p + n);
      LastOfBoth(s, o, replies, p, before.cmds, story.cmds);
    }
  }

  lemma LastOfBoth(s: Scenario, o: BootOptions, replies: nat -> Reply, p: nat, a: seq<Command>, b: seq<Command>)
    ensures LaunchedClean(s, o, replies, p + |a|, b) ==> LaunchedClean(s, o, replies, p, a + b)
  {
    hide StarlarkFailed, ArgsOf, EnclaveOf;
    assert p + |a + b| - 1 == p + |a| + |b| - 1;
    assert b != [] ==> (a + b)[|a + b| - 1] == b[|b| - 1];
  }

  lemma NoneLaunched(s: Scenario, o: BootOptions, saved: map<string, Args>, replies: nat -> Reply, p: nat, b: seq<Command>)
    ensures Launches(BeforeLaunch(s, o, saved, replies, p).cmds + b) == Launches(b)
  {
    hide BeforeLaunch;
    var cmds := BeforeLaunch(s, o, saved, replies, p).cmds;
    forall j | 0 <= j < |cmds|
      ensures !cmds[j].Launch?
    {
      EarlyCommands(s, o, saved, replies, p, j);
    }
    NoLaunches(cmds, b);
  }

  lemma {:induction false} NoLaunches(a: seq<Command>, b: seq<Command>)
    requires forall j :: 0 <= j < |a| ==> !a[j].Launch?
    ensures Launches(a + b) == Launches(b)
  {
    if a == [] {
      assert a + b == b;
    } else {
      NoLaunches(a[1..], b);
      assert a + b == [a[0]] + (a[1..] + b);
      LaunchesAfter(a[0], a[1..] + b);
    }
  }

  // ---------------------------------------------------------------------------------------------
  // When a boot goes ahead, and with what
  // ---------------------------------------------------------------------------------------------

  /** A boot passes its checks exactly when its scenario is sound, its enclave has a name and its
      flags suit each other and, for a network, what the list says: it is new, or is to be reset, or
      can be resumed. */
  lemma GoesAhead(s: Scenario, o: BootOptions, saved: map<string, Args>, replies: nat -> Reply, p: nat, enclave: string)
    requires enclave == if o.enclave == "" then s.name else o.enclave
    ensures Checks(s, o, saved, replies, p).ok <==>
              && s.loads && s.valid && enclave != ""
              && if s.networkOnly then
                   && !(o.resume && o.reset) && replies(p).err.None?
                   && (!o.resume && enclave in replies(p).names ==> o.reset)
                   && (o.resume ==> s.goxrpl == 0 && enclave in replies(p).names && enclave in saved
                                    && s.compiled.Some? && SameNetwork(saved[enclave], s.compiled.value))
                 else !o.resume && !o.reset
    ensures Checks(s, o, saved, replies, p).ok && s.networkOnly ==> Checks(s, o, saved, replies, p).cmds == [ListEnclaves]
  {
    hide Compatible, SameNetwork;
    if enclave in saved && s.compiled.Some? {
      CompatibleIs(saved[enclave], s.compiled.value);
    }
  }

  /** Both images are built, if asked for, goxrpl first and rippled only if that went well, each under
      the scenario's name for it or its latest. */
  lemma BuildsAre(s: Scenario, o: BootOptions, replies: nat -> Reply, p: nat)
    ensures var leg := Builds(s, o, replies, p);
            var goxrpl := BuildImage(o.rebuildGoxrpl, if s.goxrplImage != "" then s.goxrplImage else "goxrpl:latest");
            var rippled := BuildImage(o.rebuildRippled, if s.rippledImage != "" then s.rippledImage else "rippled:latest");
            && (o.rebuildGoxrpl == "" && o.rebuildRippled == "" ==> leg == Leg([], true))
            && (o.rebuildGoxrpl == "" && o.rebuildRippled != "" ==> leg == Leg([rippled], replies(p).err.None?))
            && (o.rebuildGoxrpl != "" && o.rebuildRippled == "" ==> leg == Leg([goxrpl], replies(p).err.None?))
            && (o.rebuildGoxrpl != "" && o.rebuildRippled != "" ==>
                  leg == if replies(p).err.None? then Leg([goxrpl, rippled], replies(p + 1).err.None?) else Leg([goxrpl], false))
  {
  }

  /** A reset removes the enclave, and forgets it, before the network is written down; nothing else
      does. */
  lemma WritesAre(s: Scenario, o: BootOptions, replies: nat -> Reply, p: nat, enclave: string)
    requires enclave == if o.enclave == "" then s.name else o.enclave
    ensures var leg, reset := Writes(s, o, replies, p), s.networkOnly && o.reset;
            && leg.cmds == (if s.recompiled.Some? && reset then [RemoveEnclave(enclave)] else [])
            && (leg.ok <==>
                  && s.recompiled.Some? && (s.networkOnly ==> s.writesNetwork)
                  && (reset ==> Removed(replies(p)) && s.forgets))
  {
    hide Removed;
  }

  /** A network is launched with what it compiles to, how long it may take to get ready and whether
      it is resumed; any other scenario with what it compiles to. */
  lemma ArgsAre(s: Scenario, o: BootOptions, f: string)
    requires s.recompiled.Some?
    ensures var compiled, args := s.recompiled.value, ArgsOf(s, o);
            if s.networkOnly && f == "network_ready_timeout_seconds" then
              f in args && args[f] == Number(if o.waitNetwork != 0 then o.waitNetwork else 180)
            else if s.networkOnly && (f == "network_resume" || f == "network_force_update") then
              f in args && args[f] == Flag(o.resume)
            else SameField(compiled, args, f)
  {
    var wait, resume, force := "network_ready_timeout_seconds", "network_resume", "network_force_update";
    assert |wait| == 29 && |resume| == 14 && |force| == 20;
  }

  /** A boot that is to tear down first does so before it launches; no other removes anything before
      its first launch. */
  lemma LaunchBegins(s: Scenario, o: BootOptions, saved: map<string, Args>, replies: nat -> Reply, p: nat, enclave: string)
    requires enclave == if o.enclave == "" then s.name else o.enclave
    requires BeforeLaunch(s, o, saved, replies, p).ok
    ensures var n, leg := |BeforeLaunch(s, o, saved, replies, p).cmds|, UpToLaunch(s, o, saved, replies, p);
            && s.recompiled.Some? && n < |leg.cmds|
            && leg.cmds[..n] == BeforeLaunch(s, o, saved, replies, p).cmds
            && leg.cmds[n] == (if o.tearDownFirst && !s.networkOnly then RemoveEnclave(enclave) else Launch(enclave, ArgsOf(s, o)))
  {
    Prepared(s, o, saved, replies, p);
    hide BeforeLaunch, ArgsOf, RunFrom;
    RunBegins(replies, p + |BeforeLaunch(s, o, saved, replies, p).cmds|, RunOptionsOf(s, o, ArgsOf(s, o)));
  }

  /** An armed watchdog gives a network its whole waiting time and a minute more; nothing arms one. */
  lemma NetworkWatchdog(s: Scenario, o: BootOptions, args: Args)
    ensures var threshold := RunOptionsOf(s, o, args).threshold;
            && (!s.networkOnly || o.threshold <= 0 ==> threshold == o.threshold)
            && (s.networkOnly && 0 < o.threshold ==>
                  && o.threshold <= threshold && o.waitNetwork + 60 <= threshold
                  && (threshold == o.threshold || threshold == o.waitNetwork + 60))
  {
  }

  lemma {:induction false} RepeatIs(service: string, count: nat, i: nat)
    ensures |Repeat(service, count)| == count
    ensures i < count ==> Repeat(service, count)[i] == service
  {
    if 0 < count {
      RepeatIs(service, count - 1, i);
    }
  }

  lemma {:induction false} NumberedIs(group: string, count: nat, i: nat)
    ensures |Numbered(group, count)| == count
    ensures i < count ==> Numbered(group, count)[i] == group + "-" + Text.Decimal(i)
  {
    if 0 < count {
      NumberedIs(group, count - 1, i);
    }
  }

  /** After its launch a boot inspects the control service until it is healthy or given up on, then a
      network's rippled nodes by number, its goxrpl nodes and its dashboard; control and dashboard
      only if they are not switched off. */
  lemma InspectedIs(s: Scenario, args: Args, i: nat)
    ensures var control := if "enable_control" in args && args["enable_control"] == Flag(false) then 0 else s.polls + 1;
            var nodes := if s.networkOnly then s.rippled + s.goxrpl else 0;
            var dashboard := s.networkOnly && !("enable_dashboard" in args && args["enable_dashboard"] == Flag(false));
            var services := Inspected(s, args);
            && |ControlServices(s, args)| == control && |services| == control + nodes + (if dashboard then 1 else 0)
            && (i < control ==> services[i] == "confluence-control")
            && (s.networkOnly && i < s.rippled ==> services[control + i] == "rippled-" + Text.Decimal(i))
            && (s.networkOnly && i < s.goxrpl ==> services[control + s.rippled + i] == "goxrpl-" + Text.Decimal(i))
            && (dashboard ==> services[control + nodes] == "dashboard")
  {
    hide Repeat, Numbered, Text.Decimal;
    RepeatIs("confluence-control", s.polls + 1, i);
    NumberedIs("rippled", s.rippled, i);
    NumberedIs("goxrpl", s.goxrpl, i);
    assert "rippled" + "-" == "rippled-" && "goxrpl" + "-" == "goxrpl-";
  }

  // ---------------------------------------------------------------------------------------------
  // Resuming what was booted
  // ---------------------------------------------------------------------------------------------

  /** What a boot adds to the arguments does not bear on whether they can be resumed. */
  lemma RunArgsCompatible(args: Args, o: BootOptions, next: Args)
    ensures Compatible(NetworkRunArgs(args, o), next) <==> Compatible(args, next)
  {
    forall f | f in FIXED_FIELDS
      ensures Field(NetworkRunArgs(args, o), f) == Field(args, f)
    {
      if f == FIXED_FIELDS[0] || f == FIXED_FIELDS[1] {
        assert f[0] != 'n';
      } else {
        NotAdded(f);
      }
    }
  }

  lemma NotAdded(f: string)
    requires f in FIXED_FIELDS
    ensures f != "network_ready_timeout_seconds" && f != "network_resume" && f != "network_force_update"
  {
    if f == "network_config" {
      assert |f| == 14;
      assert f[8] == 'c';
    }
  }

  /** A network that got as far as being saved can be resumed by any later boot of its enclave, as
      long as it exists, has no goxrpl node and compiles to the same topology, genesis and services:
      exactly then, whether its launch succeeded or not. */
  lemma SavedNetworkResumes(s: Scenario, o: BootOptions, saved: map<string, Args>, replies: nat -> Reply, p: nat,
                            t: Scenario, r: BootOptions, q: nat)
    requires s.networkOnly && BeforeLaunch(s, o, saved, replies, p).ok
    requires !Refused(t, r) && r.resume && EnclaveOf(t, r) == EnclaveOf(s, o) && replies(q).err.None?
    ensures s.recompiled.Some?
    ensures Checks(t, r, saved[EnclaveOf(s, o) := ArgsOf(s, o)], replies, q).ok <==>
              && EnclaveOf(t, r) in replies(q).names && t.goxrpl == 0
              && t.compiled.Some? && SameNetwork(s.recompiled.value, t.compiled.value)
  {
    hide Compatible, SameNetwork;
    if t.compiled.Some? {
      CompatibleIs(s.recompiled.value, t.compiled.value);
      RunArgsCompatible(s.recompiled.value, o, t.compiled.value);
    }
  }
}
