/** The configuration file (src/core/config.cpp): `parse` undoes `serialize`. */
module ConfigFile {
  import opened ConfigText

  datatype Settings = Settings(hotkey: string, broadcastPresence: bool, lockPropagationOptin: bool,
                               runOnStartup: bool)

  datatype PairedDevice = PairedDevice(id: string, name: string, lastIp: string, port: nat, os: string,
                                       wolCapable: bool, mac: string)

  datatype LayoutMonitor = LayoutMonitor(machineId: string, monitorIndex: int, x: int, y: int, w: int, h: int)

  datatype Config = Config(settings: Settings, devices: seq<PairedDevice>, priority: seq<string>,
                           ineligible: seq<string>, monitors: seq<LayoutMonitor>)

  function DefaultConfig(): Config {
    Config(Settings("Ctrl+Alt+Space", true, false, false), [], [], [], [])
  }

  /** Field values within the source's integer types. */
  ghost predicate InRange(n: int) { I32_MIN <= n <= I32_MAX }

  ghost predicate DeviceTyped(d: PairedDevice) { d.port <= 65535 }

  ghost predicate MonitorTyped(m: LayoutMonitor) {
    InRange(m.monitorIndex) && InRange(m.x) && InRange(m.y) && InRange(m.w) && InRange(m.h)
  }

  ghost predicate WellTyped(c: Config) {
    && (forall d :: d in c.devices ==> DeviceTyped(d))
    && (forall m :: m in c.monitors ==> MonitorTyped(m))
  }

  // ---------------------------------------------------------------- serialize

  function Flag(b: bool): string { if b then "1" else "0" }

  function DeviceFields(d: PairedDevice): seq<string> {
    [d.id, d.name, d.lastIp, ToString(d.port), d.os, Flag(d.wolCapable), d.mac]
  }

  function MonitorFields(m: LayoutMonitor): seq<string> {
    [m.machineId, ToString(m.monitorIndex), ToString(m.x), ToString(m.y), ToString(m.w), ToString(m.h)]
  }

  function Entry(key: string, val: string): string { key + "=" + val }

  function DeviceLine(d: PairedDevice): string { Entry("device", Join(DeviceFields(d))) }

  function MonitorLine(m: LayoutMonitor): string { Entry("monitor", Join(MonitorFields(m))) }

  function Six<T>(a: T, b: T, c: T, d: T, e: T, f: T): seq<T> { [a, b, c, d, e, f] }

  function HeadLines(s: Settings): seq<string> {
    Six("# Skittermouse config",
        Entry("version", "1"),
        Entry("setting.hotkey", Esc(s.hotkey)),
        Entry("setting.broadcast", Flag(s.broadcastPresence)),
        Entry("setting.lock_optin", Flag(s.lockPropagationOptin)),
        Entry("setting.run_on_startup", Flag(s.runOnStartup)))
  }

  function ListLines(c: Config): seq<string> {
    [Entry("priority", Join(c.priority)), Entry("ineligible", Join(c.ineligible))]
  }

  function FileLines(c: Config): seq<string> {
    HeadLines(c.settings) + Map(DeviceLine, c.devices) + ListLines(c) + Map(MonitorLine, c.monitors)
  }

  function Serialize(c: Config): string { Unlines(FileLines(c)) }

  /** Text that is written as it is. */
  ghost predicate Verbatim(s: string) {
    forall i :: 0 <= i < |s| ==> s[i] != '\\' && s[i] != '|' && s[i] != '\n' && s[i] != '\r'
  }

  lemma {:induction false} VerbatimEsc(s: string)
    requires Verbatim(s)
    ensures Esc(s) == s
  {
    if s != [] {
      VerbatimEsc(s[1..]);
      assert s == [s[0]] + s[1..];
    }
  }

  function Bars(fields: seq<string>): string {
    if fields == [] then "" else if |fields| == 1 then fields[0] else fields[0] + ("|" + Bars(fields[1..]))
  }

  lemma {:induction false} JoinVerbatim(fields: seq<string>)
    requires forall i :: 0 <= i < |fields| ==> Verbatim(fields[i])
    ensures Join(fields) == Bars(fields)
  {
    if fields != [] {
      VerbatimEsc(fields[0]);
      if |fields| > 1 {
        JoinVerbatim(fields[1..]);
        assert fields[0] + "|" + Bars(fields[1..]) == fields[0] + ("|" + Bars(fields[1..]));
      }
    }
  }

  lemma {:induction false} NumbersAreVerbatim(n: nat)
    ensures Verbatim(Digits(n)) && Verbatim(ToString(n)) && Verbatim("-" + Digits(n))
  {
    if n >= 10 { NumbersAreVerbatim(n / 10); }
  }

  lemma IntsAreVerbatim(n: int)
    ensures Verbatim(ToString(n))
  {
    NumbersAreVerbatim(if n < 0 then -n else n);
  }

  lemma BarsStep(a: string, rest: seq<string>)
    requires rest != []
    ensures Bars([a] + rest) == a + ("|" + Bars(rest))
  {
    assert ([a] + rest)[1..] == rest;
  }

  lemma BarsOfSix(a: string, b: string, c: string, d: string, e: string, f: string)
    ensures Bars([a, b, c, d, e, f]) == a + ("|" + (b + ("|" + (c + ("|" + (d + ("|" + (e + ("|" + f)))))))))
  {
    BarsStep(e, [f]);
    BarsStep(d, [e] + [f]);
    BarsStep(c, [d] + ([e] + [f]));
    BarsStep(b, [c] + ([d] + ([e] + [f])));
    BarsStep(a, [b] + ([c] + ([d] + ([e] + [f]))));
    assert [a, b, c, d, e, f] == [a] + ([b] + ([c] + ([d] + ([e] + [f]))));
  }

  lemma BarsOfSeven(a: string, b: string, c: string, d: string, e: string, f: string, g: string)
    ensures Bars([a, b, c, d, e, f, g])
         == a + ("|" + (b + ("|" + (c + ("|" + (d + ("|" + (e + ("|" + (f + ("|" + g)))))))))))
  {
    BarsOfSix(b, c, d, e, f, g);
    BarsStep(a, [b, c, d, e, f, g]);
    assert [a, b, c, d, e, f, g] == [a] + [b, c, d, e, f, g];
  }

  /** The line of a device whose texts need no escapes: its fields in the order id, name,
      address, port, system, wake-on-LAN, MAC. */
  lemma DeviceLineIs(d: PairedDevice)
    requires Verbatim(d.id) && Verbatim(d.name) && Verbatim(d.lastIp) && Verbatim(d.os) && Verbatim(d.mac)
    ensures DeviceLine(d) == Entry("device",
              d.id + ("|" + (d.name + ("|" + (d.lastIp + ("|" + (Digits(d.port) + ("|" + (d.os + ("|"
              + (Flag(d.wolCapable) + ("|" + d.mac))))))))))))
  {
    NumbersAreVerbatim(d.port);
    assert ToString(d.port) == Digits(d.port) && Verbatim(Flag(d.wolCapable));
    JoinVerbatim(DeviceFields(d));
    BarsOfSeven(d.id, d.name, d.lastIp, ToString(d.port), d.os, Flag(d.wolCapable), d.mac);
  }

  /** The line of a monitor: its machine, index, position and size. */
  lemma MonitorLineIs(m: LayoutMonitor)
    requires Verbatim(m.machineId)
    ensures MonitorLine(m) == Entry("monitor",
              m.machineId + ("|" + (ToString(m.monitorIndex) + ("|" + (ToString(m.x) + ("|" + (ToString(m.y)
              + ("|" + (ToString(m.w) + ("|" + ToString(m.h)))))))))))
  {
    IntsAreVerbatim(m.monitorIndex);
    IntsAreVerbatim(m.x);
    IntsAreVerbatim(m.y);
    IntsAreVerbatim(m.w);
    IntsAreVerbatim(m.h);
    JoinVerbatim(MonitorFields(m));
    BarsOfSix(m.machineId, ToString(m.monitorIndex), ToString(m.x), ToString(m.y), ToString(m.w), ToString(m.h));
  }

  // ---------------------------------------------------------------- parse

  /** Position of the first `=`, or the length when there is none. */
  function FindEq(line: string): (i: nat)
    ensures i <= |line|
  {
    if line == [] || line[0] == '=' then 0 else 1 + FindEq(line[1..])
  }

  function At(f: seq<string>, i: nat, default: string): string { if i < |f| then f[i] else default }

  function ReadDevice(f: seq<string>): PairedDevice {
    PairedDevice(At(f, 0, ""), At(f, 1, ""), At(f, 2, ""), if |f| > 3 then ReadU16From(f[3], 0) else 0,
                 At(f, 4, ""), At(f, 5, "") == "1", At(f, 6, ""))
  }

  function I32At(f: seq<string>, i: nat): int { if i < |f| then ReadI32(f[i]) else 0 }

  function ReadMonitor(f: seq<string>): LayoutMonitor {
    LayoutMonitor(At(f, 0, ""), I32At(f, 1), I32At(f, 2), I32At(f, 3), I32At(f, 4), I32At(f, 5))
  }

  /** Fields that are missing at the end of a device or monitor line read as empty ones; further
      fields are ignored. */
  lemma MissingFieldsAreEmpty(f: seq<string>, more: seq<string>)
    requires forall i :: 0 <= i < |more| ==> more[i] == "" || |f| + i >= 7
    ensures ReadDevice(f + more) == ReadDevice(f)
    ensures |f| >= 6 || (forall i :: 0 <= i < |more| ==> more[i] == "") ==> ReadMonitor(f + more) == ReadMonitor(f)
  {
  }

  function WithHotkey(c: Config, v: string): Config { c.(settings := c.settings.(hotkey := v)) }

  function WithBroadcast(c: Config, b: bool): Config { c.(settings := c.settings.(broadcastPresence := b)) }

  function WithLock(c: Config, b: bool): Config { c.(settings := c.settings.(lockPropagationOptin := b)) }

  function WithStartup(c: Config, b: bool): Config { c.(settings := c.settings.(runOnStartup := b)) }

  function Assign(c: Config, key: string, val: string): Config {
    if key == "setting.hotkey" then WithHotkey(c, Unesc(val))
    else if key == "setting.broadcast" then WithBroadcast(c, val == "1")
    else if key == "setting.lock_optin" then WithLock(c, val == "1")
    else if key == "setting.run_on_startup" then WithStartup(c, val == "1")
    else if key == "device" then c.(devices := c.devices + [ReadDevice(Split(val))])
    else if key == "priority" then c.(priority := Split(val))
    else if key == "ineligible" then c.(ineligible := Split(val))
    else if key == "monitor" then c.(monitors := c.monitors + [ReadMonitor(Split(val))])
    else c
  }

  function ParseLine(c: Config, line: string): Config {
    if line == [] || line[0] == '#' || FindEq(line) == |line| then c
    else Assign(c, line[..FindEq(line)], line[FindEq(line) + 1..])
  }

  function ParseLines(c: Config, lines: seq<string>): Config { Fold(ParseLine, c, lines) }

  function Parse(text: string): Config { ParseLines(DefaultConfig(), LinesFrom(text, "")) }

  // ---------------------------------------------------------------- the code as written

  method SerializeConfig(c: Config) returns (out: string)
    ensures out == Serialize(c)
  {
    var hotkey := Escape(c.settings.hotkey);
    var lines := ["# Skittermouse config", Entry("version", "1"), Entry("setting.hotkey", hotkey),
                  Entry("setting.broadcast", Flag(c.settings.broadcastPresence)),
                  Entry("setting.lock_optin", Flag(c.settings.lockPropagationOptin)),
                  Entry("setting.run_on_startup", Flag(c.settings.runOnStartup))];
    lines := AppendDevices(lines, c.devices);
    var p := JoinFields(c.priority);
    var q := JoinFields(c.ineligible);
    lines := lines + [Entry("priority", p), Entry("ineligible", q)];
    lines := AppendMonitors(lines, c.monitors);
    out := Unlines(lines);
  }

  method AppendDevices(lines: seq<string>, ds: seq<PairedDevice>) returns (out: seq<string>)
    ensures out == lines + Map(DeviceLine, ds)
  {
    out := lines;
    for i := 0 to |ds|
      invariant out + Map(DeviceLine, ds[i..]) == lines + Map(DeviceLine, ds)
    {
      assert ds[i..][1..] == ds[i + 1..];
      var line := JoinFields(DeviceFields(ds[i]));
      var e := Entry("device", line);
      assert out + ([e] + Map(DeviceLine, ds[i + 1..])) == (out + [e]) + Map(DeviceLine, ds[i + 1..]);
      out := out + [e];
    }
  }

  method AppendMonitors(lines: seq<string>, ms: seq<LayoutMonitor>) returns (out: seq<string>)
    ensures out == lines + Map(MonitorLine, ms)
  {
    out := lines;
    for i := 0 to |ms|
      invariant out + Map(MonitorLine, ms[i..]) == lines + Map(MonitorLine, ms)
    {
      assert ms[i..][1..] == ms[i + 1..];
      var line := JoinFields(MonitorFields(ms[i]));
      var e := Entry("monitor", line);
      assert out + ([e] + Map(MonitorLine, ms[i + 1..])) == (out + [e]) + Map(MonitorLine, ms[i + 1..]);
      out := out + [e];
    }
  }

  method ParseConfig(text: string) returns (c: Config)
    ensures c == Parse(text)
  {
    c := DefaultConfig();
    var lines := SplitLines(text);
    for i := 0 to |lines|
      invariant ParseLines(c, lines[i..]) == Parse(text)
    {
      assert lines[i..][1..] == lines[i + 1..];
      c := ParseOne(c, lines[i]);
    }
  }

  method ParseOne(c: Config, line: string) returns (r: Config)
    ensures r == ParseLine(c, line)
  {
    if |line| == 0 || line[0] == '#' { return c; }
    var eq := 0;
    while eq < |line| && line[eq] != '='
      invariant 0 <= eq <= |line|
      invariant FindEq(line) == eq + FindEq(line[eq..])
    {
      assert line[eq..][1..] == line[eq + 1..];
      eq := eq + 1;
    }
    if eq == |line| { return c; }
    r := Assign(c, line[..eq], line[eq + 1..]);
  }

  // ---------------------------------------------------------------- round trip

  lemma {:induction false} FindEqAfterKey(key: string, val: string)
    requires forall i :: 0 <= i < |key| ==> key[i] != '='
    ensures FindEq(Entry(key, val)) == |key|
  {
    if key == [] {
      assert Entry(key, val)[0] == '=';
    } else {
      assert Entry(key, val)[1..] == Entry(key[1..], val);
      FindEqAfterKey(key[1..], val);
    }
  }

  ghost predicate IsKey(key: string) {
    key != [] && key[0] != '#' && forall i :: 0 <= i < |key| ==> key[i] != '='
  }

  lemma ParseEntry(c: Config, key: string, val: string)
    requires IsKey(key)
    ensures ParseLine(c, Entry(key, val)) == Assign(c, key, val)
  {
    FindEqAfterKey(key, val);
    var line := Entry(key, val);
    assert line[..|key|] == key && line[|key| + 1..] == val;
  }

  lemma DeviceRoundTrip(d: PairedDevice)
    requires DeviceTyped(d)
    ensures ReadDevice(Split(Join(DeviceFields(d)))) == d
  {
    SplitOfJoin(DeviceFields(d));
    assert |DeviceFields(d)| == 7;
    U16RoundTrip(d.port);
  }

  lemma MonitorRoundTrip(m: LayoutMonitor)
    requires MonitorTyped(m)
    ensures ReadMonitor(Split(Join(MonitorFields(m)))) == m
  {
    SplitOfJoin(MonitorFields(m));
    assert |MonitorFields(m)| == 6;
    I32RoundTrip(m.monitorIndex);
    I32RoundTrip(m.x);
    I32RoundTrip(m.y);
    I32RoundTrip(m.w);
    I32RoundTrip(m.h);
  }

  /** The entries that append to a list. */
  lemma DeviceEntry(c: Config, d: PairedDevice)
    requires DeviceTyped(d)
    ensures ParseLine(c, DeviceLine(d)) == c.(devices := c.devices + [d])
  {
    ParseEntry(c, "device", Join(DeviceFields(d)));
    DeviceRoundTrip(d);
  }

  lemma MonitorEntry(c: Config, m: LayoutMonitor)
    requires MonitorTyped(m)
    ensures ParseLine(c, MonitorLine(m)) == c.(monitors := c.monitors + [m])
  {
    ParseEntry(c, "monitor", Join(MonitorFields(m)));
    MonitorRoundTrip(m);
  }

  lemma ParseDevices(c: Config, ds: seq<PairedDevice>)
    requires forall x :: x in ds ==> DeviceTyped(x)
    ensures ParseLines(c, Map(DeviceLine, ds)) == c.(devices := c.devices + ds)
  {
    forall c', x | DeviceTyped(x)
      ensures ParseLine(c', DeviceLine(x)) == c'.(devices := c'.devices + [x])
    {
      DeviceEntry(c', x);
    }
    FoldDevices(ParseLine, DeviceLine, c, ds);
  }

  lemma {:induction false} FoldDevices(f: (Config, string) -> Config, g: PairedDevice -> string, c: Config,
                                       ds: seq<PairedDevice>)
    requires forall c', x {:trigger f(c', g(x))} :: DeviceTyped(x) ==> f(c', g(x)) == c'.(devices := c'.devices + [x])
    requires forall x :: x in ds ==> DeviceTyped(x)
    ensures Fold(f, c, Map(g, ds)) == c.(devices := c.devices + ds)
    decreases ds
  {
    if ds == [] {
      assert c.devices + ds == c.devices;
    } else {
      var c1 := c.(devices := c.devices + [ds[0]]);
      assert f(c, g(ds[0])) == c1;
      FoldCons(f, c, g(ds[0]), Map(g, ds[1..]), c1);
      FoldDevices(f, g, c1, ds[1..]);
      assert c.devices + [ds[0]] + ds[1..] == c.devices + ds;
    }
  }

  lemma ParseMonitors(c: Config, ms: seq<LayoutMonitor>)
    requires forall x :: x in ms ==> MonitorTyped(x)
    ensures ParseLines(c, Map(MonitorLine, ms)) == c.(monitors := c.monitors + ms)
  {
    forall c', x | MonitorTyped(x)
      ensures ParseLine(c', MonitorLine(x)) == c'.(monitors := c'.monitors + [x])
    {
      MonitorEntry(c', x);
    }
    FoldMonitors(ParseLine, MonitorLine, c, ms);
  }

  lemma {:induction false} FoldMonitors(f: (Config, string) -> Config, g: LayoutMonitor -> string, c: Config,
                                        ms: seq<LayoutMonitor>)
    requires forall c', x {:trigger f(c', g(x))} ::
               MonitorTyped(x) ==> f(c', g(x)) == c'.(monitors := c'.monitors + [x])
    requires forall x :: x in ms ==> MonitorTyped(x)
    ensures Fold(f, c, Map(g, ms)) == c.(monitors := c.monitors + ms)
    decreases ms
  {
    if ms == [] {
      assert c.monitors + ms == c.monitors;
    } else {
      var c1 := c.(monitors := c.monitors + [ms[0]]);
      assert f(c, g(ms[0])) == c1;
      FoldCons(f, c, g(ms[0]), Map(g, ms[1..]), c1);
      FoldMonitors(f, g, c1, ms[1..]);
      assert c.monitors + [ms[0]] + ms[1..] == c.monitors + ms;
    }
  }

  /** The entries that set a single value. */
  lemma HotkeyEntry(c: Config, val: string)
    ensures ParseLine(c, Entry("setting.hotkey", Esc(val))) == WithHotkey(c, val)
  {
    ParseEntry(c, "setting.hotkey", Esc(val));
    UnescOfEsc(val);
  }

  lemma BroadcastEntry(c: Config, b: bool)
    ensures ParseLine(c, Entry("setting.broadcast", Flag(b))) == WithBroadcast(c, b)
  {
    ParseEntry(c, "setting.broadcast", Flag(b));
  }

  lemma LockEntry(c: Config, b: bool)
    ensures ParseLine(c, Entry("setting.lock_optin", Flag(b))) == WithLock(c, b)
  {
    ParseEntry(c, "setting.lock_optin", Flag(b));
  }

  lemma StartupEntry(c: Config, b: bool)
    ensures ParseLine(c, Entry("setting.run_on_startup", Flag(b))) == WithStartup(c, b)
  {
    ParseEntry(c, "setting.run_on_startup", Flag(b));
  }

  lemma SkippedLines(c: Config)
    ensures ParseLine(c, "# Skittermouse config") == c && ParseLine(c, Entry("version", "1")) == c
  {
    ParseEntry(c, "version", "1");
    assert "version"[0] != "monitor"[0];
  }

  lemma ListEntries(c: Config, p: string, q: string)
    ensures ParseLine(c, Entry("priority", p)) == c.(priority := Split(p))
    ensures ParseLine(c, Entry("ineligible", q)) == c.(ineligible := Split(q))
  {
    ParseEntry(c, "priority", p);
    ParseEntry(c, "ineligible", q);
  }

  lemma ParseHead(c: Config, s: Settings)
    ensures ParseLines(c, HeadLines(s)) == c.(settings := s)
  {
    var c1 := WithHotkey(c, s.hotkey);
    var c2 := WithBroadcast(c1, s.broadcastPresence);
    var c3 := WithLock(c2, s.lockPropagationOptin);
    SkippedLines(c);
    HotkeyEntry(c, s.hotkey);
    BroadcastEntry(c1, s.broadcastPresence);
    LockEntry(c2, s.lockPropagationOptin);
    StartupEntry(c3, s.runOnStartup);
    FoldSix(ParseLine, c, c, c, c1, c2, c3, WithStartup(c3, s.runOnStartup),
            "# Skittermouse config", Entry("version", "1"),
            Entry("setting.hotkey", Esc(s.hotkey)), Entry("setting.broadcast", Flag(s.broadcastPresence)),
            Entry("setting.lock_optin", Flag(s.lockPropagationOptin)),
            Entry("setting.run_on_startup", Flag(s.runOnStartup)));
  }

  lemma FoldSix<S, E>(f: (S, E) -> S, s0: S, s1: S, s2: S, s3: S, s4: S, s5: S, s6: S,
                      l0: E, l1: E, l2: E, l3: E, l4: E, l5: E)
    requires f(s0, l0) == s1 && f(s1, l1) == s2 && f(s2, l2) == s3
    requires f(s3, l3) == s4 && f(s4, l4) == s5 && f(s5, l5) == s6
    ensures Fold(f, s0, Six(l0, l1, l2, l3, l4, l5)) == s6
  {
    FoldTrace(f, [s0, s1, s2, s3, s4, s5, s6], [l0, l1, l2, l3, l4, l5]);
  }

  lemma ParseLists(c: Config, lists: Config)
    ensures ParseLines(c, ListLines(lists)) ==
            c.(priority := Split(Join(lists.priority)), ineligible := Split(Join(lists.ineligible)))
  {
    var p, q := Join(lists.priority), Join(lists.ineligible);
    var c1 := c.(priority := Split(p));
    ListEntries(c, p, q);
    ListEntries(c1, p, q);
    FoldTrace(ParseLine, [c, c1, c1.(ineligible := Split(q))], ListLines(lists));
  }

  // ---------------------------------------------------------------- lines that change nothing

  const KNOWN_KEYS: set<string> := {"setting.hotkey", "setting.broadcast", "setting.lock_optin",
                                    "setting.run_on_startup", "device", "priority", "ineligible", "monitor"}

  /** Empty lines, comments, lines without `=`, and entries under a key the format does not
      know. */
  ghost predicate Ignorable(line: string) {
    || line == "" || line[0] == '#'
    || (forall i :: 0 <= i < |line| ==> line[i] != '=')
    || (exists key, val :: line == Entry(key, val) && IsKey(key) && key !in KNOWN_KEYS)
  }

  lemma {:induction false} NoEqAtEnd(line: string)
    requires forall i :: 0 <= i < |line| ==> line[i] != '='
    ensures FindEq(line) == |line|
  {
    if line != [] { NoEqAtEnd(line[1..]); }
  }

  lemma IgnorableIsIgnored(c: Config, line: string)
    requires Ignorable(line)
    ensures ParseLine(c, line) == c
  {
    if line != "" && line[0] != '#' {
      if forall i :: 0 <= i < |line| ==> line[i] != '=' {
        NoEqAtEnd(line);
      } else {
        var key, val :| line == Entry(key, val) && IsKey(key) && key !in KNOWN_KEYS;
        ParseEntry(c, key, val);
        UnknownKey(c, key, val);
      }
    }
  }

  lemma UnknownKey(c: Config, key: string, val: string)
    requires key !in KNOWN_KEYS
    ensures Assign(c, key, val) == c
  {
  }

  /** Such a line anywhere in a file changes nothing of what is read: older versions read
      newer files. */
  lemma IgnoredAnywhere(c: Config, before: seq<string>, line: string, after: seq<string>)
    requires Ignorable(line)
    ensures ParseLines(c, before + [line] + after) == ParseLines(c, before + after)
  {
    FoldConcat(ParseLine, c, before + [line], after);
    FoldConcat(ParseLine, c, before, [line]);
    FoldConcat(ParseLine, c, before, after);
    var d := ParseLines(c, before);
    IgnorableIsIgnored(d, line);
    FoldCons(ParseLine, d, line, [], d);
    assert [line] + [] == [line];
  }

  /** What is read of a file that says nothing: the settings of a new installation. */
  lemma SilenceIsDefault()
    ensures Parse("") == Config(Settings("Ctrl+Alt+Space", true, false, false), [], [], [], [])
  {
  }

  // ---------------------------------------------------------------- every line is one line

  lemma {:induction false} JoinIsOneLine(fields: seq<string>)
    ensures forall i :: 0 <= i < |Join(fields)| ==> Join(fields)[i] != '\n' && Join(fields)[i] != '\r'
  {
    if fields != [] {
      EscIsClean(fields[0]);
      assert Clean(Esc(fields[0]));
      forall i | 0 <= i < |Esc(fields[0])|
        ensures Esc(fields[0])[i] != '\n' && Esc(fields[0])[i] != '\r'
      {
        assert Plain(Esc(fields[0])[i]);
      }
      if |fields| > 1 { JoinIsOneLine(fields[1..]); }
    }
  }

  ghost predicate NoBreaks(s: string) { forall i :: 0 <= i < |s| ==> s[i] != '\n' && s[i] != '\r' }

  lemma EntryIsOneLine(key: string, val: string)
    requires NoBreaks(key) && NoBreaks(val)
    ensures OneLine(Entry(key, val))
  {
    var e := Entry(key, val);
    assert forall i :: 0 <= i < |e| ==>
      e[i] == if i < |key| then key[i] else if i == |key| then '=' else val[i - |key| - 1];
    assert NoBreaks(e);
  }

  lemma FileLinesAreLines(c: Config)
    ensures forall i :: 0 <= i < |FileLines(c)| ==> OneLine(FileLines(c)[i])
  {
    HeadIsLines(c.settings);
    DeviceLinesAreLines(c.devices);
    MonitorLinesAreLines(c.monitors);
    JoinIsOneLine(c.priority);
    EntryIsOneLine("priority", Join(c.priority));
    JoinIsOneLine(c.ineligible);
    EntryIsOneLine("ineligible", Join(c.ineligible));
    AllLines(HeadLines(c.settings), Map(DeviceLine, c.devices));
    AllLines(HeadLines(c.settings) + Map(DeviceLine, c.devices), ListLines(c));
    AllLines(HeadLines(c.settings) + Map(DeviceLine, c.devices) + ListLines(c), Map(MonitorLine, c.monitors));
  }

  lemma DeviceLinesAreLines(ds: seq<PairedDevice>)
    ensures forall i :: 0 <= i < |Map(DeviceLine, ds)| ==> OneLine(Map(DeviceLine, ds)[i])
  {
    forall x
      ensures OneLine(DeviceLine(x))
    {
      JoinIsOneLine(DeviceFields(x));
      EntryIsOneLine("device", Join(DeviceFields(x)));
    }
    MapForall(DeviceLine, ds, s => OneLine(s));
  }

  lemma MonitorLinesAreLines(ms: seq<LayoutMonitor>)
    ensures forall i :: 0 <= i < |Map(MonitorLine, ms)| ==> OneLine(Map(MonitorLine, ms)[i])
  {
    forall x
      ensures OneLine(MonitorLine(x))
    {
      JoinIsOneLine(MonitorFields(x));
      EntryIsOneLine("monitor", Join(MonitorFields(x)));
    }
    MapForall(MonitorLine, ms, s => OneLine(s));
  }

  lemma AllLines(a: seq<string>, b: seq<string>)
    requires forall i :: 0 <= i < |a| ==> OneLine(a[i])
    requires forall i :: 0 <= i < |b| ==> OneLine(b[i])
    ensures forall i :: 0 <= i < |a + b| ==> OneLine((a + b)[i])
  {
  }

  lemma HeadIsLines(s: Settings)
    ensures forall i :: 0 <= i < |HeadLines(s)| ==> OneLine(HeadLines(s)[i])
  {
    FixedHeadIsLines(s);
    HotkeyIsLine(s.hotkey);
    SixAreLines("# Skittermouse config", Entry("version", "1"),
                Entry("setting.hotkey", Esc(s.hotkey)), Entry("setting.broadcast", Flag(s.broadcastPresence)),
                Entry("setting.lock_optin", Flag(s.lockPropagationOptin)),
                Entry("setting.run_on_startup", Flag(s.runOnStartup)));
  }

  lemma SixAreLines(l0: string, l1: string, l2: string, l3: string, l4: string, l5: string)
    requires OneLine(l0) && OneLine(l1) && OneLine(l2) && OneLine(l3) && OneLine(l4) && OneLine(l5)
    ensures forall i :: 0 <= i < 6 ==> OneLine(Six(l0, l1, l2, l3, l4, l5)[i])
  {
  }

  lemma HotkeyIsLine(hotkey: string)
    ensures OneLine(Entry("setting.hotkey", Esc(hotkey)))
  {
    JoinIsOneLine([hotkey]);
    assert Join([hotkey]) == Esc(hotkey);
    EntryIsOneLine("setting.hotkey", Esc(hotkey));
  }

  lemma FixedHeadIsLines(s: Settings)
    ensures OneLine("# Skittermouse config") && OneLine(Entry("version", "1"))
    ensures OneLine(Entry("setting.broadcast", Flag(s.broadcastPresence)))
    ensures OneLine(Entry("setting.lock_optin", Flag(s.lockPropagationOptin)))
    ensures OneLine(Entry("setting.run_on_startup", Flag(s.runOnStartup)))
  {
    EntryIsOneLine("version", "1");
    EntryIsOneLine("setting.broadcast", Flag(s.broadcastPresence));
    EntryIsOneLine("setting.lock_optin", Flag(s.lockPropagationOptin));
    EntryIsOneLine("setting.run_on_startup", Flag(s.runOnStartup));
  }

  // ---------------------------------------------------------------- main result

  /** What parsing a serialized configuration gives back, field by field. */
  lemma ParseOfSerialize(c: Config)
    requires WellTyped(c)
    ensures Parse(Serialize(c)) ==
            c.(priority := Split(Join(c.priority)), ineligible := Split(Join(c.ineligible)))
  {
    FileLinesAreLines(c);
    LinesOfUnlines(FileLines(c));
    var head, dev, lists, mon :=
      HeadLines(c.settings), Map(DeviceLine, c.devices), ListLines(c), Map(MonitorLine, c.monitors);
    var c0 := DefaultConfig();
    FoldConcat(ParseLine, c0, head + dev + lists, mon);
    FoldConcat(ParseLine, c0, head + dev, lists);
    FoldConcat(ParseLine, c0, head, dev);
    ParseHead(c0, c.settings);
    ParseDevices(c0.(settings := c.settings), c.devices);
    var c2 := c0.(settings := c.settings, devices := c.devices);
    assert c0.devices + c.devices == c.devices;
    ParseLists(c2, c);
    var c3 := c2.(priority := Split(Join(c.priority)), ineligible := Split(Join(c.ineligible)));
    ParseMonitors(c3, c.monitors);
    assert c3.monitors + c.monitors == c.monitors;
  }

  /** A configuration with arbitrary text survives being written and read exactly when
      neither id list is the list of one empty id. */
  lemma ConfigRoundTrip(c: Config)
    requires WellTyped(c)
    ensures Parse(Serialize(c)) == c <==> c.priority != [""] && c.ineligible != [""]
  {
    ParseOfSerialize(c);
    SplitOfJoin(c.priority);
    SplitOfJoin(c.ineligible);
  }
}
