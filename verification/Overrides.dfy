/**
 The node override files: which files the flag selects (cmd/chainsimulator) and how their
 contents are merged (config).
 */
module Overrides {
  import opened Wrappers
  import opened Text

  const SEPARATOR := ','
  const DEFAULT_FILENAME := "nodeOverrideDefault.toml"
  const DEFAULT_PATH := "./config/" + DEFAULT_FILENAME

  datatype OverridableConfig = OverridableConfig(file: string, path: string, value: string)

  /** What loading one file gives: its overrides in order, or an error. */
  type Loader = string -> Result<seq<OverridableConfig>, string>

  predicate NamesDefault(filename: string) {
    Contains(filename, DEFAULT_FILENAME)
  }

  ghost predicate SomeNamesDefault(files: seq<string>) {
    exists i :: 0 <= i < |files| && NamesDefault(files[i])
  }

  /** The files for a flag value: the listed ones, after the default one when none of them names it. */
  ghost function Selected(flag: string): seq<string> {
    var files := Split(flag, SEPARATOR);
    if SomeNamesDefault(files) then files else [DEFAULT_PATH] + files
  }

  method DetermineOverrideConfigFiles(flag: string) returns (files: seq<string>)
    ensures files == Selected(flag)
  {
    files := Split(flag, SEPARATOR);
    for i := 0 to |files|
      invariant forall j :: 0 <= j < i ==> !NamesDefault(files[j])
    {
      if NamesDefault(files[i]) {
        return files;
      }
    }
    files := [DEFAULT_PATH] + files;
  }

  /** A file counts as the default one exactly if its name holds the text, wherever. */
  lemma {:induction false} NamesDefaultIff(filename: string)
    ensures NamesDefault(filename) <==>
            exists i: nat :: i + 24 <= |filename| && filename[i..][..24] == "nodeOverrideDefault.toml"
  {
    ContainsIff(filename, "nodeOverrideDefault.toml");
    assert |"nodeOverrideDefault.toml"| == 24;
  }

  lemma {:induction false} NoSeparatorInNames()
    ensures SEPARATOR !in DEFAULT_FILENAME && SEPARATOR !in "./config/" && SEPARATOR !in ".bak"
  {}

  lemma {:induction false} DefaultPathNamesDefault()
    ensures NamesDefault(DEFAULT_PATH) && SEPARATOR !in DEFAULT_PATH
  {
    var directory: string := "./config/";
    var filename: string := DEFAULT_FILENAME;
    NoSeparatorInNames();
    ContainsMiddle(directory, filename, "");
    assert directory + filename + "" == directory + filename;
  }

  /** Some selected file always names the default one, and no file name holds the separator. */
  lemma {:induction false} SelectedNamesDefault(flag: string)
    ensures SomeNamesDefault(Selected(flag))
    ensures forall i :: 0 <= i < |Selected(flag)| ==> SEPARATOR !in Selected(flag)[i]
  {
    DefaultPathNamesDefault();
    PartsHaveNoSeparator(flag, SEPARATOR);
    var files := Split(flag, SEPARATOR);
    if !SomeNamesDefault(files) {
      assert Selected(flag)[0] == DEFAULT_PATH;
    }
  }

  /** The listed files come last, in their order, and at most one file is added. */
  lemma {:induction false} SelectedKeepsListed(flag: string)
    ensures var files := Split(flag, SEPARATOR);
            var n := |Selected(flag)| - |files|;
            0 <= n <= 1 && Selected(flag)[n..] == files && Join(files, SEPARATOR) == flag
  {
    JoinAfterSplit(flag, SEPARATOR);
  }

  /** Selecting again from the selection, written as a flag value, changes nothing. */
  lemma {:induction false} SelectionIsIdempotent(flag: string)
    ensures Selected(Join(Selected(flag), SEPARATOR)) == Selected(flag)
  {
    SelectedNamesDefault(flag);
    SplitAfterJoin(Selected(flag), SEPARATOR);
  }

  /**
   The documentation says the default file is added automatically. It is among the selected files
   exactly when it is listed or nothing listed merely names it.
   */
  lemma {:induction false} DefaultIsSelectedIff(flag: string)
    ensures var files := Split(flag, ',');
            "./config/nodeOverrideDefault.toml" in Selected(flag) <==>
            "./config/nodeOverrideDefault.toml" in files || !exists i :: 0 <= i < |files| && NamesDefault(files[i])
  {
    var files := Split(flag, ',');
    assert DEFAULT_PATH == "./config/nodeOverrideDefault.toml" by {
      assert "./config/" + "nodeOverrideDefault.toml" == "./config/nodeOverrideDefault.toml";
    }
    if !SomeNamesDefault(files) {
      assert Selected(flag)[0] == DEFAULT_PATH;
    }
  }

  /** A file whose name only contains the default name keeps the default file out. */
  lemma {:induction false} DefaultCanBeLeftOut()
    ensures var flag := DEFAULT_FILENAME + ".bak";
            Selected(flag) == [flag] && DEFAULT_PATH !in Selected(flag)
  {
    var flag := DEFAULT_FILENAME + ".bak";
    DefaultPathNamesDefault();
    ContainsMiddle("", DEFAULT_FILENAME, ".bak");
    assert "" + DEFAULT_FILENAME == DEFAULT_FILENAME;
    NoSeparatorInNames();
    SplitPrefix(flag, "", SEPARATOR);
    assert flag + "" == flag;
    assert Split(flag, SEPARATOR)[0] == flag;
    assert |DEFAULT_PATH| != |flag|;
  }

  /* Merging */

  function Merged(load: Loader, files: seq<string>): Result<seq<OverridableConfig>, string> {
    if files == [] then Ok([])
    else match load(files[0])
      case Err(e) => Err(e)
      case Ok(configs) =>
        match Merged(load, files[1..])
        case Err(e) => Err(e)
        case Ok(rest) => Ok(configs + rest)
  }

  /** Appends the overrides of the files one after another; an error leaves the empty result. */
  method ReadAll(load: Loader, filenames: seq<string>)
    returns (merged: seq<OverridableConfig>, err: Option<string>)
    ensures Merged(load, filenames) == if err.Some? then Err(err.value) else Ok(merged)
    ensures err.Some? ==> merged == []
  {
    merged, err := [], None;
    assert filenames[0..] == filenames;
    assert Merged(load, filenames).Ok? ==> merged + Merged(load, filenames).value == Merged(load, filenames).value;
    for i := 0 to |filenames|
      invariant Merged(load, filenames) ==
                match Merged(load, filenames[i..])
                case Err(e) => Err(e)
                case Ok(rest) => Ok(merged + rest)
      invariant err == None
    {
      var read := load(filenames[i]);
      assert filenames[i..][0] == filenames[i] && filenames[i..][1..] == filenames[i + 1..];
      match read {
        case Err(e) =>
          return [], Some(e);
        case Ok(configs) =>
          ghost var rest := Merged(load, filenames[i + 1..]);
          assert rest.Ok? ==> merged + (configs + rest.value) == merged + configs + rest.value;
          merged := merged + configs;
      }
    }
    assert filenames[|filenames|..] == [];
    assert merged + [] == merged;
  }

  /** Reading a list of files in two parts: the first error wins, and otherwise the results are joined. */
  lemma {:induction false} MergeIsHomomorphic(load: Loader, xs: seq<string>, ys: seq<string>)
    ensures Merged(load, xs + ys) ==
            match Merged(load, xs)
            case Err(e) => Err(e)
            case Ok(a) =>
              match Merged(load, ys)
              case Err(e) => Err(e)
              case Ok(b) => Ok(a + b)
  {
    if xs == [] {
      assert xs + ys == ys;
      assert Merged(load, ys).Ok? ==> [] + Merged(load, ys).value == Merged(load, ys).value;
    } else {
      assert (xs + ys)[1..] == xs[1..] + ys;
      MergeIsHomomorphic(load, xs[1..], ys);
      if load(xs[0]).Ok? && Merged(load, xs[1..]).Ok? && Merged(load, ys).Ok? {
        var a, b, c := load(xs[0]).value, Merged(load, xs[1..]).value, Merged(load, ys).value;
        assert a + (b + c) == (a + b) + c;
      }
    }
  }

  /** A list of one file is what the file holds; with the law above that fixes every list. */
  lemma {:induction false} MergedOfOne(load: Loader, f: string)
    ensures Merged(load, [f]) == load(f) && Merged(load, []) == Ok([])
  {
    assert [f][1..] == [];
    if load(f).Ok? {
      assert load(f).value + [] == load(f).value;
    }
  }

  /** The error reported is that of the first file that does not load. */
  lemma {:induction false} MergeFailsExactly(load: Loader, files: seq<string>, e: string)
    ensures Merged(load, files) == Err(e) <==>
            exists i :: 0 <= i < |files| && load(files[i]) == Err(e) && forall j :: 0 <= j < i ==> load(files[j]).Ok?
  {
    if files != [] {
      MergeFailsExactly(load, files[1..], e);
      if Merged(load, files) == Err(e) {
        if load(files[0]).Err? {
          assert load(files[0]) == Err(e);
        } else {
          var i :| 0 <= i < |files| - 1 && load(files[1..][i]) == Err(e) &&
                   forall j :: 0 <= j < i ==> load(files[1..][j]).Ok?;
          assert load(files[i + 1]) == Err(e);
          forall j | 0 <= j < i + 1
            ensures load(files[j]).Ok?
          {
            assert j > 0 ==> files[j] == files[1..][j - 1];
          }
        }
      }
      if i :| 0 <= i < |files| && load(files[i]) == Err(e) && forall j :: 0 <= j < i ==> load(files[j]).Ok? {
        if i > 0 {
          assert load(files[1..][i - 1]) == Err(e);
          assert forall j :: 0 <= j < i - 1 ==> files[1..][j] == files[j + 1];
        }
      }
    }
  }

  /** The values in force after applying overrides in order: for each file and path, the last one. */
  function InForce(configs: seq<OverridableConfig>): map<(string, string), string> {
    if configs == [] then map[]
    else
      var last := configs[|configs| - 1];
      InForce(configs[..|configs| - 1])[(last.file, last.path) := last.value]
  }

  /** Applying a merged list is applying its parts one after another, later values replacing earlier ones. */
  lemma {:induction false} InForceOfConcat(a: seq<OverridableConfig>, b: seq<OverridableConfig>)
    ensures InForce(a + b) == InForce(a) + InForce(b)
    decreases |b|
  {
    if b == [] {
      assert a + b == a;
    } else {
      var n := |b| - 1;
      assert (a + b)[..|a + b| - 1] == a + b[..n];
      InForceOfConcat(a, b[..n]);
    }
  }

  /** A single override is in force for its file and path, and for nothing else. */
  lemma {:induction false} InForceOfOne(c: OverridableConfig)
    ensures InForce([c]) == map[(c.file, c.path) := c.value] && InForce([]) == map[]
  {
    assert [c][..0] == [];
  }

  /** When all files load, the files can be applied one by one: the last file naming a key decides. */
  lemma {:induction false} LastFileWins(
    load: Loader, xs: seq<string>, f: string, ys: seq<string>, key: (string, string))
    requires Merged(load, xs + [f] + ys).Ok?
    requires load(f).Ok? && key in InForce(load(f).value)
    requires Merged(load, ys).Ok? ==> key !in InForce(Merged(load, ys).value)
    ensures key in InForce(Merged(load, xs + [f] + ys).value)
    ensures InForce(Merged(load, xs + [f] + ys).value)[key] == InForce(load(f).value)[key]
  {
    MergeIsHomomorphic(load, xs + [f], ys);
    MergeIsHomomorphic(load, xs, [f]);
    var own := load(f).value;
    assert [f][1..] == [] && own + [] == own;
    assert Merged(load, [f]) == Ok(own);
    var before := Merged(load, xs).value;
    InForceOfConcat(before, own);
    InForceOfConcat(before + own, Merged(load, ys).value);
  }

  /** An automatically added default file decides nothing that a listed file names. */
  lemma {:induction false} DefaultIsWeakest(load: Loader, flag: string, key: (string, string))
    requires !SomeNamesDefault(Split(flag, SEPARATOR))
    requires Merged(load, Selected(flag)).Ok?
    ensures load(DEFAULT_PATH).Ok? && Merged(load, Split(flag, SEPARATOR)).Ok?
    ensures var listed := InForce(Merged(load, Split(flag, SEPARATOR)).value);
            var own := InForce(load(DEFAULT_PATH).value);
            InForce(Merged(load, Selected(flag)).value) == own + listed
    ensures var listed := InForce(Merged(load, Split(flag, SEPARATOR)).value);
            key in listed ==> key in InForce(Merged(load, Selected(flag)).value) &&
                              InForce(Merged(load, Selected(flag)).value)[key] == listed[key]
  {
    var files := Split(flag, SEPARATOR);
    assert ([DEFAULT_PATH] + files)[1..] == files;
    InForceOfConcat(load(DEFAULT_PATH).value, Merged(load, files).value);
  }
}
