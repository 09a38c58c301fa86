/**
 * The batch runner: for every `.bat` file of the model folder it reads the
 * command, switches autorun on and, when a project table is named, swaps the
 * command's last option value for that table before launching it.
 */
module RunMaxentBatches {
  import opened Seqs
  import opened Strings
  import MaxentBatchFile

  // ---------------------------------------------------------------------
  // setAutorun
  // ---------------------------------------------------------------------

  const AutorunOn: string := "autorun=true"
  const AutorunOff: string := "autorun=false"

  /** `setAutorun(cmd, on)`: every occurrence of one switch text becomes the other. */
  function SetAutorun(cmd: string, on: bool): string {
    if on then Replace(cmd, AutorunOff, AutorunOn) else Replace(cmd, AutorunOn, AutorunOff)
  }

  lemma NoOverlapAt(a: string, b: string, k: nat)
    requires k < |a| && k < |b| && a[k] != b[k]
    ensures !Overlaps(a, b)
  {
  }

  /** Neither switch text can be rebuilt from pieces of the other. */
  lemma SwitchesApart(x: string, y: string)
    requires (x == AutorunOn && y == AutorunOff) || (x == AutorunOff && y == AutorunOn)
    ensures forall p :: 0 <= p < |x| ==> !Overlaps(x[p..], y)
  {
    forall p | 0 <= p < |x|
      ensures !Overlaps(x[p..], y)
    {
      if p == 0 {
        assert x[0..] == x;
        NoOverlapAt(x, y, 8);
      } else if x == AutorunOff && p == 9 {
        NoOverlapAt(x[p..], y, 1);
      } else {
        NoOverlapAt(x[p..], y, 0);
      }
    }
  }

  /** Switching autorun on leaves no `autorun=false` behind. */
  lemma SetAutorunOnRemovesOff(cmd: string)
    ensures !Contains(SetAutorun(cmd, true), AutorunOff)
  {
    SwitchesApart(AutorunOn, AutorunOff);
    SwitchesApart(AutorunOff, AutorunOn);
    ReplaceRemoves(cmd, AutorunOff, AutorunOn);
  }

  /** Switching autorun off leaves no `autorun=true` behind. */
  lemma SetAutorunOffRemovesOn(cmd: string)
    ensures !Contains(SetAutorun(cmd, false), AutorunOn)
  {
    SwitchesApart(AutorunOn, AutorunOff);
    SwitchesApart(AutorunOff, AutorunOn);
    ReplaceRemoves(cmd, AutorunOn, AutorunOff);
  }

  /** A command holding neither switch text is returned as it is. */
  lemma SetAutorunUnchanged(cmd: string, on: bool)
    requires !Contains(cmd, AutorunOff) && !Contains(cmd, AutorunOn)
    ensures SetAutorun(cmd, on) == cmd
  {
    ReplaceAbsent(cmd, AutorunOff, AutorunOn);
    ReplaceAbsent(cmd, AutorunOn, AutorunOff);
  }

  /** Setting autorun twice is setting it once. */
  lemma SetAutorunIdempotent(cmd: string, on: bool)
    ensures SetAutorun(SetAutorun(cmd, on), on) == SetAutorun(cmd, on)
  {
    var once := SetAutorun(cmd, on);
    if on {
      SetAutorunOnRemovesOff(cmd);
      ReplaceAbsent(once, AutorunOff, AutorunOn);
    } else {
      SetAutorunOffRemovesOn(cmd);
      ReplaceAbsent(once, AutorunOn, AutorunOff);
    }
  }

  // ---------------------------------------------------------------------
  // setProjectFN
  // ---------------------------------------------------------------------

  /** `cmd.split("=")[-1]`: the text after the last `=`, or all of `cmd`. */
  function OrigFN(cmd: string): (orig: string)
    ensures '=' !in orig && EndsWith(cmd, orig)
    ensures |orig| == |cmd| || cmd[|cmd| - |orig| - 1] == '='
  {
    SplitLast(cmd, '=');
    LastPart(cmd, '=')
  }

  /** `setProjectFN(cmd, projFN)`: every occurrence of the last value becomes `projFN`. */
  function SetProjectFN(cmd: string, projFN: string): string {
    Replace(cmd, OrigFN(cmd), projFN)
  }

  /**
   * The rewritten command always ends with `projFN`: when the last value is
   * empty because the command ends with `=`, the empty pattern still puts
   * `projFN` at the end.
   */
  lemma SetProjectFNEnds(cmd: string, projFN: string)
    ensures EndsWith(SetProjectFN(cmd, projFN), projFN)
  {
    var orig := OrigFN(cmd);
    if |orig| == 0 {
      InterleaveEnds(cmd, projFN);
    } else {
      var a := cmd[..|cmd| - |orig|];
      assert cmd == a + orig;
      ReplaceAtEnd(a, orig, projFN, '=');
      EndsWithConcat(Replace(a, orig, projFN), projFN);
    }
  }

  /** A command without `=` is replaced as a whole. */
  lemma SetProjectFNNoEquals(cmd: string, projFN: string)
    requires '=' !in cmd
    ensures SetProjectFN(cmd, projFN) == projFN
  {
    assert OrigFN(cmd) == cmd;
    ReplaceWhole(cmd, projFN);
  }

  /** With a trailing `=` the last value is empty and `projFN` goes between every character. */
  lemma SetProjectFNTrailingEquals()
    ensures OrigFN("a=") == ""
    ensures SetProjectFN("a=", "p") == "pap=p"
  {
    SplitLastOf("a", '=', "");
    assert "a" + ['='] + "" == "a=";
  }

  // ---------------------------------------------------------------------
  // The loop's guards
  // ---------------------------------------------------------------------

  /** `f[-4:] == ".bat"`. */
  predicate IsBatchFile(f: string) {
    LastN(f, 4) == ".bat"
  }

  /** The project name is used unless it is `"#"` or empty. */
  predicate ReplacesProject(prjFilename: string) {
    prjFilename != "#" && prjFilename != ""
  }

  /** The files the loop reads, in listing order. */
  function BatchFiles(allFiles: seq<string>): seq<string> {
    Filter(allFiles, IsBatchFile)
  }

  /** What the loop launches for one batch file whose first line is `cmd`. */
  function RunCommand(cmd: string, prjFilename: string): string {
    var runCmd := SetAutorun(cmd, true);
    if ReplacesProject(prjFilename) then SetProjectFN(runCmd, prjFilename) else runCmd
  }

  /** Exactly the listed names ending in `.bat` are read, in listing order. */
  lemma BatchFilesSpec(allFiles: seq<string>, f: string)
    ensures f in BatchFiles(allFiles) <==> f in allFiles && EndsWith(f, ".bat")
    ensures IsSubseq(BatchFiles(allFiles), allFiles)
  {
    FilterMember(allFiles, IsBatchFile, f);
    LastNIsSuffixTest(f, ".bat");
    FilterSubseq(allFiles, IsBatchFile);
  }

  /**
   * With a project name the launched command ends with it; without one,
   * only autorun is changed and it is on everywhere.
   */
  lemma RunCommandSpec(cmd: string, prjFilename: string)
    ensures ReplacesProject(prjFilename) ==> EndsWith(RunCommand(cmd, prjFilename), prjFilename)
    ensures !ReplacesProject(prjFilename) ==>
              RunCommand(cmd, prjFilename) == SetAutorun(cmd, true) &&
              !Contains(RunCommand(cmd, prjFilename), AutorunOff)
  {
    SetProjectFNEnds(SetAutorun(cmd, true), prjFilename);
    SetAutorunOnRemovesOff(cmd);
  }

  // ---------------------------------------------------------------------
  // Rewriting a command the batch-file writer built
  // ---------------------------------------------------------------------

  /** A command ending in the option ` key=value` has `value` as its last value. */
  lemma OrigFNOfOption(h: string, s: MaxentBatchFile.Setting)
    requires '=' !in s.value
    ensures var cmd := h + MaxentBatchFile.OptionText(s);
            OrigFN(cmd) == s.value &&
            cmd[..|cmd| - |s.value|] == h + MaxentBatchFile.OptionText(MaxentBatchFile.Setting(s.key, ""))
  {
    var cmd := h + MaxentBatchFile.OptionText(s);
    assert cmd == (h + " " + s.key) + ['='] + s.value;
    SplitLastOf(h + " " + s.key, '=', s.value);
  }

  /**
   * The value `setProjectFN` replaces in a command built by the batch-file
   * writer is the projection file when there is one, and otherwise the
   * `Background` of the species toggle.
   */
  lemma OrigFNOfBuiltCommand(maxentJarFile: string, swdFile: string, outDir: string, autorun: string, prjFile: string)
    requires '=' !in prjFile
    ensures OrigFN(MaxentBatchFile.RunString(maxentJarFile, swdFile, outDir, autorun, prjFile))
            == if prjFile != "#" then prjFile else "Background"
  {
    MaxentBatchFile.RunStringLast(maxentJarFile, swdFile, outDir, autorun, prjFile);
    OrigFNOfOption(MaxentBatchFile.Launcher + maxentJarFile
                   + MaxentBatchFile.Render(MaxentBatchFile.LeadingOptions(swdFile, outDir, autorun, prjFile)),
                   MaxentBatchFile.LastOption(prjFile));
  }

  /**
   * `setProjectFN` on a command whose last option is ` key=value`, where
   * nothing before it holds the first character of `value`: only that value
   * is replaced.
   */
  lemma SetProjectFNLastOnly(h: string, s: MaxentBatchFile.Setting, projFN: string)
    requires '=' !in s.value && |s.value| > 0
    requires s.value[0] !in h + MaxentBatchFile.OptionText(MaxentBatchFile.Setting(s.key, ""))
    ensures SetProjectFN(h + MaxentBatchFile.OptionText(s), projFN)
            == h + MaxentBatchFile.OptionText(MaxentBatchFile.Setting(s.key, projFN))
  {
    var pre := h + MaxentBatchFile.OptionText(MaxentBatchFile.Setting(s.key, ""));
    var cmd := h + MaxentBatchFile.OptionText(s);
    OrigFNOfOption(h, s);
    assert cmd == pre + s.value;
    assert pre[|pre| - 1] == '=';
    ReplaceAtEnd(pre, s.value, projFN, '=');
    assert !Contains(pre, s.value) by {
      if Contains(pre, s.value) {
        ContainsFirstChar(pre, s.value);
      }
    }
    ReplaceAbsent(pre, s.value, projFN);
    assert SetProjectFN(cmd, projFN) == pre + projFN;
    assert h + MaxentBatchFile.OptionText(MaxentBatchFile.Setting(s.key, projFN)) == pre + projFN;
  }

  /**
   * On the species toggle a command built without a projection file ends
   * with, the rewrite puts `projFN` where `Background` was, as long as
   * nothing before the toggle holds a `B`: the toggle now names the
   * project table and no projection option is added.
   */
  lemma SetProjectFNReplacesToggle(h: string, projFN: string)
    requires 'B' !in h
    ensures SetProjectFN(h + MaxentBatchFile.OptionText(MaxentBatchFile.Setting("togglespeciesselected", "Background")), projFN)
            == h + MaxentBatchFile.OptionText(MaxentBatchFile.Setting("togglespeciesselected", projFN))
  {
    var s := MaxentBatchFile.Setting("togglespeciesselected", "Background");
    var t := MaxentBatchFile.OptionText(MaxentBatchFile.Setting(s.key, ""));
    assert 'B' !in s.key;
    assert t == [' '] + s.key + ['='];
    SetProjectFNLastOnly(h, s, projFN);
  }

  /**
   * The same on a whole command the batch-file writer builds without a
   * projection file (`prjFile` is "#"), when the jar path, the SWD file
   * and the output directory hold no `B`: only the toggle's value changes.
   */
  lemma SetProjectFNOfBuiltCommand(maxentJarFile: string, swdFile: string, outDir: string, autorun: string, projFN: string)
    requires 'B' !in maxentJarFile && 'B' !in swdFile && 'B' !in outDir
    ensures SetProjectFN(MaxentBatchFile.RunString(maxentJarFile, swdFile, outDir, autorun, "#"), projFN)
            == MaxentBatchFile.Launcher + maxentJarFile
               + MaxentBatchFile.Render(MaxentBatchFile.LeadingOptions(swdFile, outDir, autorun, "#"))
               + MaxentBatchFile.OptionText(MaxentBatchFile.Setting("togglespeciesselected", projFN))
  {
    var lead := MaxentBatchFile.LeadingOptions(swdFile, outDir, autorun, "#");
    MaxentBatchFile.RunStringLast(maxentJarFile, swdFile, outDir, autorun, "#");
    MaxentBatchFile.LeadingTextAvoidsB(maxentJarFile, swdFile, outDir, autorun);
    var h := MaxentBatchFile.Launcher + maxentJarFile + MaxentBatchFile.Render(lead);
    SetProjectFNReplacesToggle(h, projFN);
  }

  const ProjectionKey: string := "projectionlayers"

  /**
   * The rewrite the runner evidently means: replace the value of a final
   * `projectionlayers` option, or add that option when the command has none
   * at its end.
   */
  function SetProjectionLayers(cmd: string, projFN: string): string {
    var orig := OrigFN(cmd);
    var head := cmd[..|cmd| - |orig|];
    if EndsWith(head, MaxentBatchFile.OptionText(MaxentBatchFile.Setting(ProjectionKey, "")))
    then head + projFN
    else cmd + MaxentBatchFile.OptionText(MaxentBatchFile.Setting(ProjectionKey, projFN))
  }

  /** The corrected rewrite always ends with the projection option for `projFN`. */
  lemma SetProjectionLayersEnds(cmd: string, projFN: string)
    ensures EndsWith(SetProjectionLayers(cmd, projFN),
                     MaxentBatchFile.OptionText(MaxentBatchFile.Setting(ProjectionKey, projFN)))
  {
    var orig := OrigFN(cmd);
    var head := cmd[..|cmd| - |orig|];
    var key := MaxentBatchFile.OptionText(MaxentBatchFile.Setting(ProjectionKey, ""));
    var full := MaxentBatchFile.OptionText(MaxentBatchFile.Setting(ProjectionKey, projFN));
    if EndsWith(head, key) {
      var h := head[..|head| - |key|];
      assert head == h + key;
      assert full == key + projFN;
      assert head + projFN == h + full;
      EndsWithConcat(h, full);
    } else {
      EndsWithConcat(cmd, full);
    }
  }

  /**
   * On a command the batch-file writer built, the corrected rewrite gives
   * exactly the command the writer builds for the new projection file.
   */
  lemma SetProjectionLayersOfBuilt(maxentJarFile: string, swdFile: string, outDir: string, autorun: string,
                                   prjFile: string, projFN: string)
    requires '=' !in prjFile && projFN != "#"
    ensures SetProjectionLayers(MaxentBatchFile.RunString(maxentJarFile, swdFile, outDir, autorun, prjFile), projFN)
            == MaxentBatchFile.RunString(maxentJarFile, swdFile, outDir, autorun, projFN)
  {
    if prjFile != "#" {
      ReplacedInBuilt(maxentJarFile, swdFile, outDir, autorun, prjFile, projFN);
    } else {
      AddedToBuilt(maxentJarFile, swdFile, outDir, autorun, projFN);
    }
  }

  lemma ReplacedInBuilt(maxentJarFile: string, swdFile: string, outDir: string, autorun: string,
                        prjFile: string, projFN: string)
    requires '=' !in prjFile && prjFile != "#" && projFN != "#"
    ensures SetProjectionLayers(MaxentBatchFile.RunString(maxentJarFile, swdFile, outDir, autorun, prjFile), projFN)
            == MaxentBatchFile.RunString(maxentJarFile, swdFile, outDir, autorun, projFN)
  {
    var fixed := MaxentBatchFile.FixedOptions(swdFile, outDir, autorun);
    MaxentBatchFile.RunStringLast(maxentJarFile, swdFile, outDir, autorun, prjFile);
    MaxentBatchFile.RunStringLast(maxentJarFile, swdFile, outDir, autorun, projFN);
    ProjectionReplaced(MaxentBatchFile.Launcher + maxentJarFile + MaxentBatchFile.Render(fixed), prjFile, projFN);
  }

  lemma AddedToBuilt(maxentJarFile: string, swdFile: string, outDir: string, autorun: string, projFN: string)
    requires projFN != "#"
    ensures SetProjectionLayers(MaxentBatchFile.RunString(maxentJarFile, swdFile, outDir, autorun, "#"), projFN)
            == MaxentBatchFile.RunString(maxentJarFile, swdFile, outDir, autorun, projFN)
  {
    var toggle := MaxentBatchFile.Setting("togglespeciesselected", "Background");
    var fixed := MaxentBatchFile.FixedOptions(swdFile, outDir, autorun);
    MaxentBatchFile.RunStringLast(maxentJarFile, swdFile, outDir, autorun, "#");
    MaxentBatchFile.RunStringAddProjection(maxentJarFile, swdFile, outDir, autorun, projFN);
    ProjectionAdded(MaxentBatchFile.Launcher + maxentJarFile + MaxentBatchFile.Render(fixed[..11]), projFN);
  }

  /** A final projection option gets the new value. */
  lemma ProjectionReplaced(h: string, prjFile: string, projFN: string)
    requires '=' !in prjFile
    ensures SetProjectionLayers(h + MaxentBatchFile.OptionText(MaxentBatchFile.Setting(ProjectionKey, prjFile)), projFN)
            == h + MaxentBatchFile.OptionText(MaxentBatchFile.Setting(ProjectionKey, projFN))
  {
    var key := MaxentBatchFile.OptionText(MaxentBatchFile.Setting(ProjectionKey, ""));
    var cmd := h + MaxentBatchFile.OptionText(MaxentBatchFile.Setting(ProjectionKey, prjFile));
    OrigFNOfOption(h, MaxentBatchFile.Setting(ProjectionKey, prjFile));
    var head := cmd[..|cmd| - |prjFile|];
    assert head == h + key;
    EndsWithConcat(h, key);
    assert SetProjectionLayers(cmd, projFN) == (h + key) + projFN;
    assert key + projFN == MaxentBatchFile.OptionText(MaxentBatchFile.Setting(ProjectionKey, projFN));
  }

  /** After the species toggle a projection option is added. */
  lemma ProjectionAdded(h: string, projFN: string)
    ensures var cmd := h + MaxentBatchFile.OptionText(MaxentBatchFile.Setting("togglespeciesselected", "Background"));
            SetProjectionLayers(cmd, projFN)
            == cmd + MaxentBatchFile.OptionText(MaxentBatchFile.Setting(ProjectionKey, projFN))
  {
    var key := MaxentBatchFile.OptionText(MaxentBatchFile.Setting(ProjectionKey, ""));
    var t := MaxentBatchFile.OptionText(MaxentBatchFile.Setting("togglespeciesselected", ""));
    OrigFNOfOption(h, MaxentBatchFile.Setting("togglespeciesselected", "Background"));
    var head := h + t;
    assert head[|head| - |key|..] == t[|t| - |key|..];
    assert t[|t| - |key|] != key[0];
  }
}
