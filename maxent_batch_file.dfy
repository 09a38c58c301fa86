/**
 * The MaxEnt batch-file writer: from the path of a species' SWD table it
 * derives the species name, the batch-file path and the output folder, and
 * grows the one-line `java ... -jar maxent.jar` command option by option.
 * Paths are Windows paths with `\` as the only separator.
 */
module MaxentBatchFile {
  import opened Seqs
  import opened Strings
  import Frames

  const Sep: char := '\\'

  // ---------------------------------------------------------------------
  // Paths (ntpath)
  // ---------------------------------------------------------------------

  /** `os.path.basename`: the text after the last separator. */
  function Basename(p: string): (b: string)
    ensures Sep !in b && EndsWith(p, b)
    ensures |b| == |p| || p[|p| - |b| - 1] == Sep
  {
    SplitLast(p, Sep);
    LastPart(p, Sep)
  }

  /** Trailing separators removed. */
  function RStrip(s: string): (r: string)
    ensures StartsWith(s, r) && (|r| == 0 || r[|r| - 1] != Sep)
    ensures forall i :: |r| <= i < |s| ==> s[i] == Sep
    decreases |s|
  {
    if |s| > 0 && s[|s| - 1] == Sep then RStrip(s[..|s| - 1]) else s
  }

  /**
   * `os.path.dirname`: everything before the base name, without trailing
   * separators unless it consists of separators only.
   */
  function Dirname(p: string): (d: string)
    ensures StartsWith(p, d)
  {
    var head := p[..|p| - |Basename(p)|];
    var stripped := RStrip(head);
    if stripped == "" then head else stripped
  }

  /** `os.path.join(a, b)` for a relative `b`. */
  function PathJoin(a: string, b: string): (r: string)
    requires |b| == 0 || b[0] != Sep
    ensures EndsWith(r, b)
  {
    if |a| == 0 then b
    else if a[|a| - 1] == Sep then a + b
    else a + [Sep] + b
  }

  /** `os.path.basename(swdFile)[:-8]`: the name before `_swd.csv`. */
  function SpeciesName(swdFile: string): (name: string)
    ensures Sep !in name
  {
    var b := Basename(swdFile);
    var name := DropLastN(b, 8);
    assert forall i :: 0 <= i < |name| ==> name[i] == b[i];
    name
  }

  /** The batch file `<folder>\<species>.bat`. */
  function MaxentFile(swdFile: string): string {
    PathJoin(Dirname(swdFile), SpeciesName(swdFile) + ".bat")
  }

  /** The output folder `<folder>\<species>`. */
  function OutDir(swdFile: string): string {
    PathJoin(Dirname(swdFile), SpeciesName(swdFile))
  }

  lemma BasenameOfJoin(d: string, n: string)
    requires Sep !in n
    ensures Basename(d + [Sep] + n) == n
  {
    SplitLastOf(d, Sep, n);
  }

  lemma DirnameOfJoin(d: string, n: string)
    requires |d| > 0 && d[|d| - 1] != Sep && Sep !in n
    ensures Dirname(d + [Sep] + n) == d
  {
    var p := d + [Sep] + n;
    BasenameOfJoin(d, n);
    assert p[..|p| - |n|] == d + [Sep];
    assert (d + [Sep])[..|d|] == d;
  }

  lemma SwdSuffixRemoved(species: string)
    ensures DropLastN(species + "_swd.csv", 8) == species
    ensures Sep !in species ==> Sep !in species + "_swd.csv"
  {
    var n := species + "_swd.csv";
    assert forall i :: 0 <= i < |n| ==> i >= |species| || n[i] == species[i];
  }

  /**
   * For the SWD table `<folder>\<species>_swd.csv` the species name is
   * recovered exactly, and the batch file and output folder sit beside it.
   */
  lemma DerivedNames(folder: string, species: string)
    requires |folder| > 0 && folder[|folder| - 1] != Sep && Sep !in species
    ensures var swdFile := folder + [Sep] + species + "_swd.csv";
            SpeciesName(swdFile) == species &&
            Dirname(swdFile) == folder &&
            MaxentFile(swdFile) == folder + [Sep] + species + ".bat" &&
            OutDir(swdFile) == folder + [Sep] + species
  {
    var n := species + "_swd.csv";
    assert folder + [Sep] + species + "_swd.csv" == folder + [Sep] + n;
    SwdSuffixRemoved(species);
    BasenameOfJoin(folder, n);
    DirnameOfJoin(folder, n);
  }

  // ---------------------------------------------------------------------
  // The command
  // ---------------------------------------------------------------------

  datatype Setting = Setting(key: string, value: string)

  /** The command-line text of one option: ` key=value`. */
  function OptionText(s: Setting): string {
    " " + s.key + "=" + s.value
  }

  /** The command-line text of a list of options. */
  function Render(opts: seq<Setting>): string
    decreases |opts|
  {
    if |opts| == 0 then "" else Render(opts[..|opts| - 1]) + OptionText(opts[|opts| - 1])
  }

  lemma RenderSnoc(opts: seq<Setting>, s: Setting)
    ensures Render(opts + [s]) == Render(opts) + OptionText(s)
  {
    assert (opts + [s])[..|opts|] == opts;
  }

  /** A character outside every key and value, other than ` ` and `=`, is nowhere in the text. */
  lemma {:induction false} RenderAvoids(opts: seq<Setting>, ch: char)
    requires ch != ' ' && ch != '='
    requires forall i :: 0 <= i < |opts| ==> ch !in opts[i].key && ch !in opts[i].value
    ensures ch !in Render(opts)
    decreases |opts|
  {
    if |opts| > 0 {
      var n := |opts| - 1;
      RenderAvoids(opts[..n], ch);
      var t := OptionText(opts[n]);
      assert t == [' '] + opts[n].key + ['='] + opts[n].value;
      assert Render(opts) == Render(opts[..n]) + t;
    }
  }

  function Keys(opts: seq<Setting>): (ks: seq<string>)
    ensures |ks| == |opts| && forall i :: 0 <= i < |opts| ==> ks[i] == opts[i].key
  {
    seq(|opts|, i requires 0 <= i < |opts| => opts[i].key)
  }

  const Launcher: string := "java -mx4096m -d64 -jar "

  /** The script's fixed number of MaxEnt threads. */
  const NumProcessors: nat := 16

  /** The script's fixed autorun switch. */
  const Autorun: string := "false"

  /** The options the script always writes, in the order it writes them. */
  function FixedOptions(swdFile: string, outDir: string, autorun: string): seq<Setting> {
    [Setting("samplesfile", swdFile),
     Setting("environmentallayers", swdFile),
     Setting("outputdirectory", outDir),
     Setting("responsecurves", "false"),
     Setting("pictures", "false"),
     Setting("plots", "false"),
     Setting("jackknife", "false"),
     Setting("askoverwrite", "false"),
     Setting("nodata", "9999"),
     Setting("threads", NatToString(NumProcessors)),
     Setting("autorun", if autorun == "true" then "true" else "false"),
     Setting("togglespeciesselected", "Background")]
  }

  /** The projection option, written only when a projection file is given. */
  function ProjectionOption(prjFile: string): seq<Setting> {
    if prjFile != "#" then [Setting("projectionlayers", prjFile)] else []
  }

  function Options(swdFile: string, outDir: string, autorun: string, prjFile: string): seq<Setting> {
    FixedOptions(swdFile, outDir, autorun) + ProjectionOption(prjFile)
  }

  /** The whole batch command. */
  function RunString(maxentJarFile: string, swdFile: string, outDir: string, autorun: string, prjFile: string): string {
    Launcher + maxentJarFile + Render(Options(swdFile, outDir, autorun, prjFile))
  }

  /**
   * `cmd += " key={}".format(value)`, where `cmd` is `base` followed by the
   * first `k` options of `all` and the new option is option `k`.
   */
  method AppendOption(ghost base: string, ghost all: seq<Setting>, ghost k: nat, cmd: string, key: string, value: string)
    returns (r: string)
    requires k < |all| && all[k] == Setting(key, value) && cmd == base + Render(all[..k])
    ensures r == base + Render(all[..k + 1])
  {
    r := cmd + " " + key + "=" + value;
    assert all[..k + 1] == all[..k] + [all[k]];
    RenderSnoc(all[..k], all[k]);
  }

  /** Grows the batch command step by step, as the script does with `+=`. */
  method BuildRunString(maxentJarFile: string, swdFile: string, outDir: string, autorun: string, prjFile: string)
    returns (runString: string)
    ensures runString == RunString(maxentJarFile, swdFile, outDir, autorun, prjFile)
  {
    ghost var all := Options(swdFile, outDir, autorun, prjFile);
    ghost var base := Launcher + maxentJarFile;
    runString := Launcher + maxentJarFile;
    assert runString == base + Render(all[..0]);
    assert all[..12] == FixedOptions(swdFile, outDir, autorun);
    runString := AppendFiles(base, all, runString, swdFile, outDir, autorun);
    runString := AppendSwitches(base, all, runString, swdFile, outDir, autorun);
    runString := AppendRunSettings(base, all, runString, swdFile, outDir, autorun);
    if prjFile != "#" {
      runString := AppendOption(base, all, 12, runString, "projectionlayers", prjFile);
      assert all[..13] == all;
    } else {
      assert all[..12] == all;
    }
  }

  /** The samples, the environmental layers and the output folder. */
  method AppendFiles(ghost base: string, ghost all: seq<Setting>, cmd: string, swdFile: string, outDir: string,
                     ghost autorun: string)
    returns (r: string)
    requires |all| >= 12 && all[..12] == FixedOptions(swdFile, outDir, autorun)
    requires cmd == base + Render(all[..0])
    ensures r == base + Render(all[..3])
  {
    assert all[0] == Setting("samplesfile", swdFile) && all[1] == Setting("environmentallayers", swdFile);
    assert all[2] == Setting("outputdirectory", outDir);
    r := AppendOption(base, all, 0, cmd, "samplesfile", swdFile);
    r := AppendOption(base, all, 1, r, "environmentallayers", swdFile);
    r := AppendOption(base, all, 2, r, "outputdirectory", outDir);
  }

  /** Response curves, pictures, plots, jackknife and the overwrite prompt, all off. */
  method AppendSwitches(ghost base: string, ghost all: seq<Setting>, cmd: string,
                        ghost swdFile: string, ghost outDir: string, ghost autorun: string)
    returns (r: string)
    requires |all| >= 12 && all[..12] == FixedOptions(swdFile, outDir, autorun)
    requires cmd == base + Render(all[..3])
    ensures r == base + Render(all[..8])
  {
    assert all[3] == Setting("responsecurves", "false") && all[4] == Setting("pictures", "false");
    assert all[5] == Setting("plots", "false") && all[6] == Setting("jackknife", "false");
    assert all[7] == Setting("askoverwrite", "false");
    r := AppendOption(base, all, 3, cmd, "responsecurves", "false");
    r := AppendOption(base, all, 4, r, "pictures", "false");
    r := AppendOption(base, all, 5, r, "plots", "false");
    r := AppendOption(base, all, 6, r, "jackknife", "false");
    r := AppendOption(base, all, 7, r, "askoverwrite", "false");
  }

  /** No-data value, threads, autorun and the Background toggle. */
  method AppendRunSettings(ghost base: string, ghost all: seq<Setting>, cmd: string,
                           ghost swdFile: string, ghost outDir: string, autorun: string)
    returns (r: string)
    requires |all| >= 12 && all[..12] == FixedOptions(swdFile, outDir, autorun)
    requires cmd == base + Render(all[..8])
    ensures r == base + Render(all[..12])
  {
    assert all[8] == Setting("nodata", "9999") && all[9] == Setting("threads", NatToString(NumProcessors));
    assert all[10] == Setting("autorun", if autorun == "true" then "true" else "false");
    assert all[11] == Setting("togglespeciesselected", "Background");
    r := AppendOption(base, all, 8, cmd, "nodata", "9999");
    r := AppendOption(base, all, 9, r, "threads", NatToString(NumProcessors));
    if autorun == "true" {
      r := AppendOption(base, all, 10, r, "autorun", "true");
    } else {
      r := AppendOption(base, all, 10, r, "autorun", "false");
    }
    r := AppendOption(base, all, 11, r, "togglespeciesselected", "Background");
  }

  // ---------------------------------------------------------------------
  // What the command says
  // ---------------------------------------------------------------------

  /** The keys of the options the script always writes, in order. */
  const FixedKeys: seq<string> :=
    ["samplesfile", "environmentallayers", "outputdirectory",
     "responsecurves", "pictures", "plots", "jackknife", "askoverwrite",
     "nodata", "threads", "autorun", "togglespeciesselected"]

  lemma KeysConcat(a: seq<Setting>, b: seq<Setting>)
    ensures Keys(a + b) == Keys(a) + Keys(b)
  {
  }

  lemma FixedOptionKeys(swdFile: string, outDir: string, autorun: string)
    ensures Keys(FixedOptions(swdFile, outDir, autorun)) == FixedKeys
  {
    var ks := Keys(FixedOptions(swdFile, outDir, autorun));
    assert |ks| == |FixedKeys|;
    forall i | 0 <= i < |ks| ensures ks[i] == FixedKeys[i] {
    }
  }

  /** Every option appears once, in a fixed order, the projection last. */
  lemma OptionKeys(swdFile: string, outDir: string, autorun: string, prjFile: string)
    ensures var ks := Keys(Options(swdFile, outDir, autorun, prjFile));
            ks == FixedKeys + (if prjFile != "#" then ["projectionlayers"] else []) &&
            Distinct(ks)
  {
    var fixed := FixedOptions(swdFile, outDir, autorun);
    FixedOptionKeys(swdFile, outDir, autorun);
    KeysConcat(fixed, ProjectionOption(prjFile));
    var ks := FixedKeys + (if prjFile != "#" then ["projectionlayers"] else []);
    assert forall i, j :: 0 <= i < j < |ks| ==> ks[i] != ks[j];
  }

  /**
   * The samples and the environmental layers are both the SWD table; the
   * thread count is the script's 16; autorun is on only for the exact text
   * "true", which the script never passes.
   */
  lemma OptionValues(swdFile: string, outDir: string, autorun: string, prjFile: string)
    ensures var opts := Options(swdFile, outDir, autorun, prjFile);
            opts[0].value == swdFile && opts[1].value == swdFile && opts[2].value == outDir &&
            ParseInt(opts[9].value) == NumProcessors &&
            (opts[10].value == "true" <==> autorun == "true") &&
            Options(swdFile, outDir, Autorun, prjFile)[10].value == "false"
  {
    DigitsRoundTrip(NumProcessors);
  }

  /** The command starts with the launcher and the jar file. */
  lemma RunStringStart(maxentJarFile: string, swdFile: string, outDir: string, autorun: string, prjFile: string)
    ensures StartsWith(RunString(maxentJarFile, swdFile, outDir, autorun, prjFile),
                       "java -mx4096m -d64 -jar " + maxentJarFile)
  {
    var s := RunString(maxentJarFile, swdFile, outDir, autorun, prjFile);
    assert s[..|Launcher + maxentJarFile|] == Launcher + maxentJarFile;
  }

  /**
   * The projection layers come last exactly when a projection file was
   * given; otherwise the command ends by deselecting the Background species.
   */
  lemma RunStringEnd(maxentJarFile: string, swdFile: string, outDir: string, autorun: string, prjFile: string)
    ensures var s := RunString(maxentJarFile, swdFile, outDir, autorun, prjFile);
            if prjFile != "#" then EndsWith(s, OptionText(Setting("projectionlayers", prjFile)))
            else EndsWith(s, OptionText(Setting("togglespeciesselected", "Background")))
  {
    RunStringLast(maxentJarFile, swdFile, outDir, autorun, prjFile);
    EndsWithConcat(Launcher + maxentJarFile + Render(LeadingOptions(swdFile, outDir, autorun, prjFile)),
                   OptionText(LastOption(prjFile)));
  }

  /** The option the command ends with. */
  function LastOption(prjFile: string): Setting {
    if prjFile != "#" then Setting("projectionlayers", prjFile)
    else Setting("togglespeciesselected", "Background")
  }

  /** The options before the last one. */
  function LeadingOptions(swdFile: string, outDir: string, autorun: string, prjFile: string): seq<Setting> {
    var fixed := FixedOptions(swdFile, outDir, autorun);
    if prjFile != "#" then fixed else fixed[..11]
  }

  /** No key before the species toggle holds a `B`. */
  lemma FixedKeyAvoidsB(swdFile: string, outDir: string, autorun: string, i: nat)
    requires i < 11
    ensures 'B' !in FixedOptions(swdFile, outDir, autorun)[i].key
  {
  }

  /** No value before the species toggle holds a `B` when the SWD file and the output directory hold none. */
  lemma FixedValueAvoidsB(swdFile: string, outDir: string, autorun: string, i: nat)
    requires i < 11 && 'B' !in swdFile && 'B' !in outDir
    ensures 'B' !in FixedOptions(swdFile, outDir, autorun)[i].value
  {
    assert 'B' !in NatToString(NumProcessors);
  }

  /**
   * The text before the species toggle of a command built without a
   * projection file holds no `B` when the jar path, the SWD file and the
   * output directory hold none.
   */
  lemma LeadingTextAvoidsB(maxentJarFile: string, swdFile: string, outDir: string, autorun: string)
    requires 'B' !in maxentJarFile && 'B' !in swdFile && 'B' !in outDir
    ensures 'B' !in Launcher + maxentJarFile + Render(LeadingOptions(swdFile, outDir, autorun, "#"))
  {
    var lead := LeadingOptions(swdFile, outDir, autorun, "#");
    forall i | 0 <= i < |lead|
      ensures 'B' !in lead[i].key && 'B' !in lead[i].value
    {
      assert lead[i] == FixedOptions(swdFile, outDir, autorun)[i];
      FixedKeyAvoidsB(swdFile, outDir, autorun, i);
      FixedValueAvoidsB(swdFile, outDir, autorun, i);
    }
    RenderAvoids(lead, 'B');
    assert 'B' !in Launcher;
  }

  lemma RunStringLast(maxentJarFile: string, swdFile: string, outDir: string, autorun: string, prjFile: string)
    ensures RunString(maxentJarFile, swdFile, outDir, autorun, prjFile)
            == Launcher + maxentJarFile + Render(LeadingOptions(swdFile, outDir, autorun, prjFile))
               + OptionText(LastOption(prjFile))
  {
    var front := LeadingOptions(swdFile, outDir, autorun, prjFile);
    assert Options(swdFile, outDir, autorun, prjFile) == front + [LastOption(prjFile)];
    RenderSnoc(front, LastOption(prjFile));
  }

  /** A projection file adds exactly one option after those of the plain command. */
  lemma RunStringAddProjection(maxentJarFile: string, swdFile: string, outDir: string, autorun: string, prjFile: string)
    requires prjFile != "#"
    ensures RunString(maxentJarFile, swdFile, outDir, autorun, prjFile)
            == RunString(maxentJarFile, swdFile, outDir, autorun, "#") + OptionText(Setting("projectionlayers", prjFile))
  {
    var fixed := FixedOptions(swdFile, outDir, autorun);
    assert Options(swdFile, outDir, autorun, "#") == fixed;
    assert Options(swdFile, outDir, autorun, prjFile) == fixed + [Setting("projectionlayers", prjFile)];
    var opt := Setting("projectionlayers", prjFile);
    RenderSnoc(fixed, opt);
    var base := Launcher + maxentJarFile;
    assert RunString(maxentJarFile, swdFile, outDir, autorun, prjFile) == base + (Render(fixed) + OptionText(opt));
    assert base + (Render(fixed) + OptionText(opt)) == (base + Render(fixed)) + OptionText(opt);
  }

  /**
   * The no-data option is the text "9999", which denotes 9999 and not the
   * tables' sentinel -9999 (the script's own message announces -9999).
   */
  lemma NoDataMissesSentinel(swdFile: string, outDir: string, autorun: string, prjFile: string)
    ensures var v := Options(swdFile, outDir, autorun, prjFile)[8];
            v.key == "nodata" && ParseInt(v.value) == 9999 && ParseInt(v.value) != Frames.Sentinel
  {
    DigitsRoundTrip(9999);
    assert NatToString(9999) == "9999";
  }

  /** The options with the no-data value the tables use. */
  function CorrectedOptions(swdFile: string, outDir: string, autorun: string, prjFile: string): seq<Setting> {
    Options(swdFile, outDir, autorun, prjFile)[8 := Setting("nodata", IntToString(Frames.Sentinel))]
  }

  /** With the correction the no-data value denotes the sentinel; nothing else changes. */
  lemma CorrectedNoData(swdFile: string, outDir: string, autorun: string, prjFile: string)
    ensures var c := CorrectedOptions(swdFile, outDir, autorun, prjFile);
            var o := Options(swdFile, outDir, autorun, prjFile);
            |c| == |o| && Keys(c) == Keys(o) &&
            ParseInt(c[8].value) == Frames.Sentinel &&
            forall i :: 0 <= i < |o| && i != 8 ==> c[i] == o[i]
  {
    IntRoundTrip(Frames.Sentinel);
  }

  // ---------------------------------------------------------------------
  // The launch guard
  // ---------------------------------------------------------------------

  datatype PyValue = PyStr(s: string) | PyInt(i: int)

  /** Python 2 `==`: a string never equals an integer. */
  predicate PyEq(a: PyValue, b: PyValue) {
    match (a, b)
    case (PyStr(x), PyStr(y)) => x == y
    case (PyInt(x), PyInt(y)) => x == y
    case _ => false
  }

  /** `runMaxent == 1` with `runMaxent` a command-line argument: never true. */
  function LaunchesMaxent(runMaxent: string): (launch: bool)
    ensures !launch
  {
    PyEq(PyStr(runMaxent), PyInt(1))
  }
}
