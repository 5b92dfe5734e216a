/**
 The service's settings and the argument vector it hands to the capture tool.
 Reading the configuration file is outside the model: `LoadSettings` starts
 from the `[settings]` section's string values and the two integers read with
 `getint`.
 */
module Command {
  import opened Wrappers
  import CommaList
  import Decimal

  const DefaultOutputDir := "/var/log/tcpdump"
  const DefaultTcpdumpBin := "/usr/bin/tcpdump"
  const DefaultRotateSizeMb := 100
  const DefaultMaxRotatedFiles := 20

  /** The module-level constants computed from the configuration at start-up. */
  datatype Settings = Settings(
    interfaces: seq<string>,
    outputDir: string,
    tcpdumpBin: string,
    rotateSizeMb: int,
    maxRotatedFiles: int,
    extraArgs: seq<string>)

  /** `section.get(key, default)`. */
  function Get(section: map<string, string>, key: string, default: string): (r: string)
    ensures key in section ==> r == section[key]
    ensures key !in section ==> r == default
  {
    if key in section then section[key] else default
  }

  /**
   The settings as the module computes them from the `[settings]` section:
   the two lists are parsed comma lists, missing keys take their defaults.
   `rotateSizeMb` and `maxRotatedFiles` are what `getint` returned, `None`
   when the key is missing.
   */
  function LoadSettings(section: map<string, string>, rotateSizeMb: Option<int>, maxRotatedFiles: Option<int>): (r: Settings)
    ensures forall k :: 0 <= k < |r.interfaces| ==>
              r.interfaces[k] != "" && CommaList.IsStripped(r.interfaces[k]) && ',' !in r.interfaces[k]
    ensures forall k :: 0 <= k < |r.extraArgs| ==>
              r.extraArgs[k] != "" && CommaList.IsStripped(r.extraArgs[k]) && ',' !in r.extraArgs[k]
    ensures "interfaces" !in section ==> r.interfaces == []
    ensures "extra_args" !in section ==> r.extraArgs == []
    ensures "output_dir" !in section ==> r.outputDir == DefaultOutputDir
    ensures "tcpdump_bin" !in section ==> r.tcpdumpBin == DefaultTcpdumpBin
    ensures rotateSizeMb.None? ==> r.rotateSizeMb == DefaultRotateSizeMb
    ensures maxRotatedFiles.None? ==> r.maxRotatedFiles == DefaultMaxRotatedFiles
    ensures "interfaces" in section ==> r.interfaces == CommaList.ParseList(section["interfaces"])
    ensures "extra_args" in section ==> r.extraArgs == CommaList.ParseList(section["extra_args"])
    ensures "output_dir" in section ==> r.outputDir == section["output_dir"]
    ensures "tcpdump_bin" in section ==> r.tcpdumpBin == section["tcpdump_bin"]
    ensures rotateSizeMb.Some? ==> r.rotateSizeMb == rotateSizeMb.value
    ensures maxRotatedFiles.Some? ==> r.maxRotatedFiles == maxRotatedFiles.value
  {
    CommaList.ParseListEmpty();
    Settings(
      CommaList.ParseList(Get(section, "interfaces", "")),
      Get(section, "output_dir", DefaultOutputDir),
      Get(section, "tcpdump_bin", DefaultTcpdumpBin),
      if rotateSizeMb.Some? then rotateSizeMb.value else DefaultRotateSizeMb,
      if maxRotatedFiles.Some? then maxRotatedFiles.value else DefaultMaxRotatedFiles,
      CommaList.ParseList(Get(section, "extra_args", "")))
  }

  predicate IsAbsolute(p: string) {
    |p| > 0 && p[0] == '/'
  }

  /**
   `str(Path(dir) / name)` for a directory already in pathlib's normal form:
   an absolute name replaces the directory, `.` contributes nothing and the
   root contributes no extra separator.
   */
  function JoinPath(dir: string, name: string): string {
    if IsAbsolute(name) then name
    else if dir == "" || dir == "." then name
    else if dir[|dir| - 1] == '/' then dir + name
    else dir + "/" + name
  }

  /** The capture file `<dir>/<iface>.pcap` (the tool adds rotation suffixes to it). */
  function OutputFile(dir: string, iface: string): string {
    JoinPath(dir, iface + ".pcap")
  }

  /** The diagnostic log `<dir>/<iface>.stderr.log` that receives the tool's standard error. */
  function LogFile(dir: string, iface: string): string {
    JoinPath(dir, iface + ".stderr.log")
  }

  /**
   `build_cmd(interface, out_base)`: the fixed eleven-element prefix, then the
   configured extra arguments unchanged and in order.
   */
  function BuildCmd(cfg: Settings, iface: string, outBase: string): (r: seq<string>)
    ensures |r| == 11 + |cfg.extraArgs|
    ensures r[0] == cfg.tcpdumpBin
    ensures r[1] == "-i" && r[2] == iface
    ensures r[3] == "-s" && r[4] == "0"
    ensures r[5] == "-w" && r[6] == OutputFile(outBase, iface)
    ensures r[7] == "-C" && r[8] == Decimal.IntToString(cfg.rotateSizeMb) && Decimal.ReadInt(r[8]) == Some(cfg.rotateSizeMb)
    ensures r[9] == "-W" && r[10] == Decimal.IntToString(cfg.maxRotatedFiles) && Decimal.ReadInt(r[10]) == Some(cfg.maxRotatedFiles)
    ensures r[11..] == cfg.extraArgs
  {
    var size, count := Decimal.IntToString(cfg.rotateSizeMb), Decimal.IntToString(cfg.maxRotatedFiles);
    Decimal.IntToStringRoundTrip(cfg.rotateSizeMb);
    Decimal.IntToStringRoundTrip(cfg.maxRotatedFiles);
    var cmd := [
      cfg.tcpdumpBin,
      "-i", iface,
      "-s", "0",
      "-w", OutputFile(outBase, iface),
      "-C", size,
      "-W", count
    ];
    cmd + cfg.extraArgs
  }

  /** For an ordinary output directory and a relative interface name the capture file is `<dir>/<iface>.pcap`. */
  lemma OutputFileForm(dir: string, iface: string)
    requires dir != "" && dir != "." && dir[|dir| - 1] != '/'
    requires !IsAbsolute(iface)
    ensures OutputFile(dir, iface) == dir + "/" + iface + ".pcap"
  {
    if iface == "" {
      assert !IsAbsolute(iface + ".pcap");
    }
  }

  /** The directory part that `JoinPath` puts in front of a relative name. */
  function JoinPrefix(dir: string): string {
    if dir == "" || dir == "." then ""
    else if dir[|dir| - 1] == '/' then dir
    else dir + "/"
  }

  lemma JoinRelative(dir: string, iface: string, ext: string)
    requires !IsAbsolute(iface) && ext != [] && ext[0] == '.'
    ensures JoinPath(dir, iface + ext) == JoinPrefix(dir) + iface + ext
  {
    assert (iface + ext)[0] == if iface == "" then ext[0] else iface[0];
  }

  /** Two relative interface names with the same capture file are the same name. */
  lemma OutputFileInjective(dir: string, a: string, b: string)
    requires !IsAbsolute(a) && !IsAbsolute(b)
    requires OutputFile(dir, a) == OutputFile(dir, b)
    ensures a == b
  {
    JoinRelative(dir, a, ".pcap");
    JoinRelative(dir, b, ".pcap");
    var p := JoinPrefix(dir);
    assert p + a + ".pcap" == p + b + ".pcap";
    assert |a| == |b|;
    forall k | 0 <= k < |a| ensures a[k] == b[k] {
      assert (p + a + ".pcap")[|p| + k] == a[k];
      assert (p + b + ".pcap")[|p| + k] == b[k];
    }
  }

  /** The joined path ends with the name; an absolute name is the whole path. */
  lemma JoinPathSuffix(dir: string, name: string)
    ensures IsAbsolute(name) ==> JoinPath(dir, name) == name
    ensures var r := JoinPath(dir, name); |r| >= |name| && r[|r| - |name|..] == name
  {
  }

  /** The capture file ends with `<iface>.pcap` and the log with `<iface>.stderr.log`, whatever the directory. */
  lemma FileSuffixes(dir: string, iface: string)
    ensures var o := OutputFile(dir, iface); |o| >= |iface| + 5 && o[|o| - |iface| - 5..] == iface + ".pcap"
    ensures var l := LogFile(dir, iface); |l| >= |iface| + 11 && l[|l| - |iface| - 11..] == iface + ".stderr.log"
  {
    JoinPathSuffix(dir, iface + ".pcap");
    JoinPathSuffix(dir, iface + ".stderr.log");
  }

  /** A diagnostic log never coincides with a capture file. */
  lemma LogFileNotOutputFile(dir: string, a: string, b: string)
    ensures LogFile(dir, a) != OutputFile(dir, b)
  {
    FileSuffixes(dir, a);
    FileSuffixes(dir, b);
    var l, o := LogFile(dir, a), OutputFile(dir, b);
    assert l[|l| - 1] == (a + ".stderr.log")[|a| + 10] == 'g';
    assert o[|o| - 1] == (b + ".pcap")[|b| + 4] == 'p';
  }
}
