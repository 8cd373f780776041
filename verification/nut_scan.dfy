/** The runner and the probers of src/nutscan.cc: `s_run_nut_scanner` runs
    nut-scanner once and parses its report, `nut_scan_snmp` and
    `nut_scan_xml_http` build the command lines and decide which runs to make.
    Running the tool is an executor handed in by the caller. */
module NutScan {
  import opened LineReader
  import opened SnippetParser
  import opened SnippetSections

  /** A command line: the program name followed by its arguments. */
  type Argv = seq<string>

  /** What a finished run of the tool reports: its exit code and what it wrote
      to standard output and standard error. */
  datatype Execution = Execution(exitCode: int, stdout: string, stderr: string)

  /** Runs a command line with a timeout in seconds. */
  type Executor = (Argv, nat) -> Execution

  /** The timeout every run of nut-scanner is given, in seconds. */
  const Timeout: nat := 10

  /** The community used when the caller gives none. */
  const DefaultCommunity: string := "public"

  /** The outcome of a probe: the status returned (0 or -1), the output vector,
      and the command lines run, in order. */
  datatype Probe = Probe(code: int, out: seq<string>, runs: seq<Argv>)

  /** `s_run_nut_scanner`: a failed run changes nothing; a run that exits with 0
      has its standard output parsed into `out`, and succeeds when `out` is not
      empty afterwards. Standard error only ever goes to the log. */
  function RunNutScanner(exec: Executor, args: Argv, name: string, out: seq<string>): (r: Probe)
    ensures r.runs == [args]
    ensures r.code == 0 || r.code == -1
    ensures r.code == 0 <==> exec(args, Timeout).exitCode == 0 && r.out != []
    ensures exec(args, Timeout).exitCode != 0 ==> r.out == out
    ensures exec(args, Timeout).exitCode == 0 ==> r.out == ParseText(name, exec(args, Timeout).stdout, out).out
    ensures r.code == -1 ==> r.out == out
  {
    var e := exec(args, Timeout);
    if e.exitCode != 0 then Probe(-1, out, [args])
    else
      var parsed := ParseText(name, e.stdout, out).out;
      if parsed == [] then Probe(-1, parsed, [args]) else Probe(0, parsed, [args])
  }

  /** The snippets a report yields, section by section. */
  function Snippets(name: string, report: string): seq<string> {
    Render(name, Bodies(LinesFrom(report)))
  }

  /** The runner against the section-wise description of the parser: the
      snippets of the report are appended after the existing entries, and the
      run succeeds exactly when the tool exits with 0 and the vector ends up
      non-empty, which for an empty vector means some tag of the report has a
      body line. */
  lemma RunOutcome(exec: Executor, args: Argv, name: string, out: seq<string>)
    ensures var e := exec(args, Timeout);
      RunNutScanner(exec, args, name, out).out ==
        (if e.exitCode == 0 then out + Snippets(name, e.stdout) else out)
    ensures var e := exec(args, Timeout);
      RunNutScanner(exec, args, name, out).code == 0 <==>
        e.exitCode == 0 && (out != [] || TagsWithBody(LinesFrom(e.stdout)) > 0)
  {
    var e := exec(args, Timeout);
    var lines := LinesFrom(e.stdout);
    assert Reads(Stream.Open(e.stdout)) == lines;
    ParseLinesCharacterised(name, lines, out);
    RenderCount(name, lines);
  }

  /** The success test looks at the whole vector, not at what this run added:
      entries already in `out` make a run that exits with 0 succeed even when
      its report yields nothing. */
  lemma PrefilledOutMasksEmptyReport(exec: Executor, args: Argv, name: string, out: seq<string>)
    requires out != [] && exec(args, Timeout).exitCode == 0
    requires Snippets(name, exec(args, Timeout).stdout) == []
    ensures RunNutScanner(exec, args, name, out) == Probe(0, out, [args])
  {
    RunOutcome(exec, args, name, out);
  }

  /** A run that exits with 0 but prints nothing fails just as a run that exits
      with an error does, and leaves `out` alone. */
  lemma EmptyReportFails(exec: Executor, args: Argv, name: string)
    requires exec(args, Timeout).exitCode == 0 && exec(args, Timeout).stdout == []
    ensures RunNutScanner(exec, args, name, []) == Probe(-1, [], [args])
  {
    RunOutcome(exec, args, name, []);
    assert LinesFrom([]) == [[]];
  }

  /** The community a probe uses: the caller's, or "public" when it is empty. */
  function Community(community: string): (comm: string)
    ensures comm != []
    ensures community != [] ==> comm == community
    ensures community == [] ==> comm == DefaultCommunity
  {
    if community == [] then DefaultCommunity else community
  }

  /** The command line of an SNMP scan with DMF support (`-z`). */
  function DmfArgs(comm: string, address: string): Argv {
    ["nut-scanner", "-q", "--community", comm, "-z", "-s", address]
  }

  /** The command line of a legacy SNMP scan (`-S`). */
  function LegacyArgs(comm: string, address: string): Argv {
    ["nut-scanner", "-q", "--community", comm, "-S", "-s", address]
  }

  /** The command line of an XML/HTTP scan (`-M`). */
  function XmlHttpArgs(address: string): Argv {
    ["nut-scanner", "-q", "-M", "-s", address]
  }

  /** `nut_scan_snmp`: with DMF asked for, by the caller or by the environment,
      a DMF scan is tried first and its result kept unless it failed; otherwise,
      or after a failure, a legacy scan is run. Both use the same community and
      address, and the outcome is that of the last run made on the caller's
      vector, since a failed run leaves the vector as it was. */
  function ScanSnmp(exec: Executor, dmfFromEnv: bool, name: string, address: string,
                    community: string, useDmf: bool, out: seq<string>): (r: Probe)
    ensures 1 <= |r.runs| <= 2
    ensures r.code == 0 || r.code == -1
    ensures r.code == -1 ==> r.out == out
    ensures var last := RunNutScanner(exec, r.runs[|r.runs| - 1], name, out);
      r.code == last.code && r.out == last.out
    ensures (r.runs[0] == DmfArgs(Community(community), address)) <==> (useDmf || dmfFromEnv)
    ensures |r.runs| == 2 ==> r.runs[0] == DmfArgs(Community(community), address)
    ensures r.runs[|r.runs| - 1] == LegacyArgs(Community(community), address) <==>
      !(useDmf || dmfFromEnv) || RunNutScanner(exec, DmfArgs(Community(community), address), name, out).code == -1
    ensures |r.runs| == 2 <==>
      (useDmf || dmfFromEnv) && RunNutScanner(exec, DmfArgs(Community(community), address), name, out).code == -1
    ensures (useDmf || dmfFromEnv) && RunNutScanner(exec, DmfArgs(Community(community), address), name, out).code != -1 ==>
      r == RunNutScanner(exec, DmfArgs(Community(community), address), name, out)
    ensures !(useDmf || dmfFromEnv) ==> r == RunNutScanner(exec, LegacyArgs(Community(community), address), name, out)
  {
    var comm := Community(community);
    if useDmf || dmfFromEnv then
      var dmf := RunNutScanner(exec, DmfArgs(comm, address), name, out);
      if dmf.code != -1 then dmf
      else
        var legacy := RunNutScanner(exec, LegacyArgs(comm, address), name, dmf.out);
        Probe(legacy.code, legacy.out, dmf.runs + legacy.runs)
    else
      RunNutScanner(exec, LegacyArgs(comm, address), name, out)
  }

  /** `nut_scan_xml_http`: one XML/HTTP scan of the address. */
  function ScanXmlHttp(exec: Executor, name: string, address: string, out: seq<string>): (r: Probe)
    ensures r.runs == [XmlHttpArgs(address)]
    ensures r.code == 0 || r.code == -1
    ensures r.code == -1 ==> r.out == out
    ensures r.code == 0 <==> exec(XmlHttpArgs(address), Timeout).exitCode == 0 && r.out != []
    ensures var e := exec(XmlHttpArgs(address), Timeout);
      r.out == (if e.exitCode == 0 then out + Snippets(name, e.stdout) else out)
  {
    RunOutcome(exec, XmlHttpArgs(address), name, out);
    RunNutScanner(exec, XmlHttpArgs(address), name, out)
  }

  /** With DMF asked for, a DMF scan that fails (a non-zero exit, or an exit
      with 0 that leaves the vector empty) and a legacy scan that exits with 0
      and reports snippets, the probe succeeds with the legacy snippets,
      after running both command lines in that order. */
  lemma DmfFailureFallsBack(exec: Executor, dmfFromEnv: bool, name: string, address: string,
                            community: string, useDmf: bool, out: seq<string>)
    requires useDmf || dmfFromEnv
    requires RunNutScanner(exec, DmfArgs(Community(community), address), name, out).code == -1
    requires exec(LegacyArgs(Community(community), address), Timeout).exitCode == 0
    requires Snippets(name, exec(LegacyArgs(Community(community), address), Timeout).stdout) != []
    ensures var comm := Community(community);
      ScanSnmp(exec, dmfFromEnv, name, address, community, useDmf, out) ==
      Probe(0, out + Snippets(name, exec(LegacyArgs(comm, address), Timeout).stdout),
            [DmfArgs(comm, address), LegacyArgs(comm, address)])
  {
    RunOutcome(exec, LegacyArgs(Community(community), address), name, out);
  }
}
