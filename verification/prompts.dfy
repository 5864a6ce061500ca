/**
 * The prompt-template registry of the analysis plugin: the fixed paths and
 * the trigger table, the alias map built from the `prompts` directory
 * (file names, their stems and the `alias` lists of the front matter), and
 * the loading of a template's text with its front matter removed.
 */
module Prompts {
  import opened Wrappers
  import opened Text
  import opened FrontMatter
  import opened Files

  const PluginDir: Path := "plugins/foward_analyse/"
  const PromptsDir: Path := PluginDir + "prompts/"
  const SystemPromptJusticePath: Path := PromptsDir + "alignment_prompt.md"
  const SystemPromptAnaPath: Path := PromptsDir + "how_to_say.md"
  const SystemPromptPovPath: Path := PromptsDir + "pov.md"
  /** Declared beside the others but used by no trigger: `blank` points at the POV template. */
  const SystemPromptBlankPath: Path := PromptsDir + "blank.md"

  /** The text used when a template cannot be read. */
  const FallbackPrompt: string := "你是一个公正的裁判,请客观地评价对话内容。"

  /** One entry of the trigger table: a command key, its template and its aliases. */
  datatype Trigger = Trigger(key: string, promptFilePath: Path, aliases: seq<string>)

  /** The trigger table, in declaration order. */
  const Triggers: seq<Trigger> := [
    Trigger("justice", SystemPromptJusticePath, ["蜻蜓队长", "正义", "天降正义", "裁判", "对线"]),
    Trigger("ana", SystemPromptAnaPath, ["analyse", "分析", "怎么说", "如何评价"]),
    Trigger("pov", SystemPromptPovPath, ["观点"]),
    Trigger("blank", SystemPromptPovPath, ["空白", "空提示词", "无", "无提示词"])
  ]

  /** `parse_yaml_front_matter(path)`: an unreadable file gives no metadata and an empty body. */
  function ParseFile(fs: FileSystem, load: string -> YamlLoad, path: Path): (r: (Option<YamlValue>, string))
    ensures Read(fs, path).None? ==> r == (None, "")
    ensures Read(fs, path).Some? ==> IsSuffix(r.1, Read(fs, path).value)
    ensures r.0.Some? ==> Read(fs, path).Some? && SplitFrontMatter(Read(fs, path).value).FrontMatter?
    ensures Read(fs, path).Some? ==> r == ParseYamlFrontMatter(load, Read(fs, path).value)
  {
    match Read(fs, path)
    case None => (None, "")
    case Some(content) => ParseYamlFrontMatter(load, content)
  }

  // ---------------------------------------------------------------------
  // File names

  /** Index of the last '.' of `name`, as `str.rfind`. */
  function LastDot(name: string): (r: Option<nat>)
    ensures r.Some? ==> r.value < |name| && name[r.value] == '.'
    ensures r.Some? ==> forall k :: r.value < k < |name| ==> name[k] != '.'
    ensures r.None? ==> forall k :: 0 <= k < |name| ==> name[k] != '.'
  {
    if name == [] then None
    else if name[|name| - 1] == '.' then Some(|name| - 1)
    else LastDot(name[..|name| - 1])
  }

  /**
   * `PurePath(name).stem`: the name without its last suffix, where a suffix
   * needs a '.' that is neither the first nor the last character.
   */
  function Stem(name: string): (r: string)
    ensures |r| <= |name| && r == name[..|r|]
  {
    match LastDot(name)
    case Some(i) => if 0 < i < |name| - 1 then name[..i] else name
    case None => name
  }

  /** The stem of `x.md` (with `x` non-empty) is `x`, and the bare name `.md` is its own stem. */
  lemma StemOfMdName(name: string)
    requires EndsWith(name, MdSuffix)
    ensures |name| > 3 ==> Stem(name) + MdSuffix == name
    ensures |name| == 3 ==> Stem(name) == name
  {
    assert name[|name| - 3..] == ".md";
    assert name[|name| - 3] == '.' && name[|name| - 2] == 'm' && name[|name| - 1] == 'd';
    assert LastDot(name[..|name| - 1]) == Some(|name| - 3) by {
      assert LastDot(name[..|name| - 2]) == Some(|name| - 3);
    }
    if |name| > 3 {
      assert name == name[..|name| - 3] + MdSuffix;
    }
  }

  /** The entries of the listing that end in `.md`, in listing order. */
  function MdEntries(listing: seq<string>): (r: seq<string>)
    ensures forall n :: n in r <==> n in listing && EndsWith(n, MdSuffix)
    ensures multiset(r) <= multiset(listing)
  {
    if listing == [] then []
    else
      var last := listing[|listing| - 1];
      assert listing == listing[..|listing| - 1] + [last];
      MdEntries(listing[..|listing| - 1]) + (if EndsWith(last, MdSuffix) then [last] else [])
  }

  /** `sorted(prompts_dir.glob("*.md"))`, as names inside the directory. */
  function MdFiles(listing: seq<string>): (r: seq<string>)
    ensures Sorted(r)
    ensures forall n :: n in r <==> n in listing && EndsWith(n, MdSuffix)
    ensures multiset(r) == multiset(MdEntries(listing))
  {
    var entries := MdEntries(listing);
    var r := Sort(entries);
    assert forall n :: n in r <==> n in entries by {
      forall n ensures n in r <==> n in entries {
        assert n in r <==> n in multiset(r);
        assert n in entries <==> n in multiset(entries);
      }
    }
    r
  }

  // ---------------------------------------------------------------------
  // The alias map

  /** The string items of a YAML list, in order; other items are skipped. */
  function StringItems(items: seq<YamlValue>): (r: seq<string>)
    ensures forall a :: a in r <==> YStr(a) in items
    ensures |r| <= |items|
  {
    if items == [] then []
    else
      var last := items[|items| - 1];
      assert items == items[..|items| - 1] + [last];
      StringItems(items[..|items| - 1]) + (if last.YStr? then [last.s] else [])
  }

  /** The metadata is a mapping whose `alias` entry is a list holding the string `a`. */
  predicate AliasListed(meta: Option<YamlValue>, a: string) {
    && meta.Some? && meta.value.YMap? && "alias" in meta.value.entries
    && meta.value.entries["alias"].YList? && YStr(a) in meta.value.entries["alias"].items
  }

  /**
   * The aliases a file's front matter declares: the strings of the `alias`
   * list of a mapping. Any other metadata declares none (for a non-mapping
   * value the lookup fails and the failure is absorbed per file).
   */
  function DeclaredAliases(meta: Option<YamlValue>): (r: seq<string>)
    ensures forall a :: a in r <==> AliasListed(meta, a)
  {
    if meta.Some? && meta.value.YMap? && "alias" in meta.value.entries && meta.value.entries["alias"].YList? then
      StringItems(meta.value.entries["alias"].items)
    else []
  }

  /** The keys one template file registers, in registration order. */
  function FileKeys(fs: FileSystem, load: string -> YamlLoad, name: string): (r: seq<string>)
    ensures |r| >= 2 && r[0] == name && r[1] == Stem(name)
    ensures forall a :: a in r[2..] <==> AliasListed(ParseFile(fs, load, PromptsDir + name).0, a)
  {
    [name, Stem(name)] + DeclaredAliases(ParseFile(fs, load, PromptsDir + name).0)
  }

  /** A template file and the keys it registers. */
  datatype Registration = Registration(name: string, keys: seq<string>)

  /** The registrations of `files`, in order. */
  function Registrations(fs: FileSystem, load: string -> YamlLoad, files: seq<string>): (r: seq<Registration>)
    ensures |r| == |files|
    ensures forall i :: 0 <= i < |files| ==> r[i] == Registration(files[i], FileKeys(fs, load, files[i]))
  {
    if files == [] then []
    else Registrations(fs, load, files[..|files| - 1]) + [Registration(files[|files| - 1], FileKeys(fs, load, files[|files| - 1]))]
  }

  /** Assigning `v` to every key of `keys` in turn. */
  function PutAll(m: map<string, Path>, keys: seq<string>, v: Path): (r: map<string, Path>)
    ensures forall k :: k in r <==> k in m || k in keys
    ensures forall k :: k in r ==> r[k] == if k in keys then v else m[k]
  {
    if keys == [] then m
    else PutAll(m, keys[..|keys| - 1], v)[keys[|keys| - 1] := v]
  }

  /** Assigning one more key. */
  lemma PutAllSnoc(m: map<string, Path>, keys: seq<string>, k: string, v: Path)
    ensures PutAll(m, keys + [k], v) == PutAll(m, keys, v)[k := v]
  {
    assert (keys + [k])[..|keys|] == keys;
  }

  /** The map after applying `regs` in order, each key pointing at its file's path. */
  function Register(regs: seq<Registration>): map<string, Path>
  {
    if regs == [] then map[]
    else
      var last := regs[|regs| - 1];
      PutAll(Register(regs[..|regs| - 1]), last.keys, PromptsDir + last.name)
  }

  /** What `load_prompt_aliases` returns for a file system. */
  function PromptAliases(fs: FileSystem, load: string -> YamlLoad): map<string, Path>
  {
    match fs.promptsListing
    case None => map[]
    case Some(listing) => Register(Registrations(fs, load, MdFiles(listing)))
  }

  /**
   * `load_prompt_aliases`: nothing when the directory is missing; otherwise
   * every `.md` file in sorted order registers its name, its stem and the
   * aliases of its front matter, later files overwriting earlier ones.
   */
  method LoadPromptAliases(fs: FileSystem, load: string -> YamlLoad) returns (aliasMap: map<string, Path>)
    ensures aliasMap == PromptAliases(fs, load)
    ensures fs.promptsListing.None? ==> aliasMap == map[]
  {
    aliasMap := map[];
    if fs.promptsListing.None? {
      return;
    }
    var mdFiles := MdFiles(fs.promptsListing.value);
    ghost var regs := Registrations(fs, load, mdFiles);
    var i := 0;
    while i < |mdFiles|
      invariant 0 <= i <= |mdFiles|
      invariant aliasMap == Register(regs[..i])
    {
      aliasMap := RegisterFile(fs, load, aliasMap, mdFiles[i]);
      RegisterStep(regs, i);
      i := i + 1;
    }
    assert regs[..i] == regs;
  }

  /**
   * The body of the per-file loop of `load_prompt_aliases`: the name and the
   * stem, then each string of the front matter's `alias` list, all pointing
   * at the file.
   */
  method RegisterFile(fs: FileSystem, load: string -> YamlLoad, aliasMap: map<string, Path>, name: string)
    returns (updated: map<string, Path>)
    ensures updated == PutAll(aliasMap, FileKeys(fs, load, name), PromptsDir + name)
  {
    var filePath := PromptsDir + name;
    updated := aliasMap[name := filePath];
    updated := updated[Stem(name) := filePath];
    PutAllPair(aliasMap, name, Stem(name), filePath);
    var parsed := ParseFile(fs, load, filePath);
    var frontMatter := parsed.0;
    if frontMatter.Some? && frontMatter.value.YMap? && "alias" in frontMatter.value.entries {
      var aliases := frontMatter.value.entries["alias"];
      if aliases.YList? {
        var j := 0;
        ghost var keys := [name, Stem(name)];
        assert keys + StringItems(aliases.items[..0]) == keys + [] by {
          assert aliases.items[..0] == [];
        }
        assert updated == PutAll(aliasMap, keys + StringItems(aliases.items[..0]), filePath);
        while j < |aliases.items|
          invariant 0 <= j <= |aliases.items|
          invariant updated == PutAll(aliasMap, [name, Stem(name)] + StringItems(aliases.items[..j]), filePath)
        {
          RegisterOneItem(aliasMap, [name, Stem(name)], aliases.items, j, filePath);
          if aliases.items[j].YStr? {
            updated := updated[aliases.items[j].s := filePath];
          }
          assert updated == PutAll(aliasMap, [name, Stem(name)] + StringItems(aliases.items[..j + 1]), filePath);
          j := j + 1;
          assert updated == PutAll(aliasMap, [name, Stem(name)] + StringItems(aliases.items[..j]), filePath);
        }
        assert aliases.items[..j] == aliases.items;
      }
    }
  }

  /** Registering two keys is two assignments. */
  lemma PutAllPair(m: map<string, Path>, a: string, b: string, v: Path)
    ensures PutAll(m, [a, b], v) == m[a := v][b := v]
    ensures PutAll(m, [a, b] + [], v) == m[a := v][b := v]
  {
    assert [a, b] + [] == [a, b];
    assert [a, b][..1] == [a];
    assert [a][..0] == [];
  }

  /** The map after one more registration. */
  lemma RegisterStep(regs: seq<Registration>, i: nat)
    requires i < |regs|
    ensures Register(regs[..i + 1]) == PutAll(Register(regs[..i]), regs[i].keys, PromptsDir + regs[i].name)
  {
    assert regs[..i + 1][..i] == regs[..i];
  }

  /** One step of the inner loop: a string item is one more assignment, any other item none. */
  lemma RegisterOneItem(m: map<string, Path>, keys: seq<string>, items: seq<YamlValue>, j: nat, v: Path)
    requires j < |items|
    ensures items[j].YStr? ==>
              PutAll(m, keys + StringItems(items[..j + 1]), v) == PutAll(m, keys + StringItems(items[..j]), v)[items[j].s := v]
    ensures !items[j].YStr? ==>
              PutAll(m, keys + StringItems(items[..j + 1]), v) == PutAll(m, keys + StringItems(items[..j]), v)
  {
    assert items[..j + 1][..j] == items[..j];
    var ks := keys + StringItems(items[..j]);
    if items[j].YStr? {
      assert keys + StringItems(items[..j + 1]) == ks + [items[j].s];
      assert (ks + [items[j].s])[..|ks|] == ks;
    } else {
      assert keys + StringItems(items[..j + 1]) == ks;
    }
  }

  /** Registration `i` is the last of `regs` whose keys include `k`. */
  ghost predicate LastRegistrant(regs: seq<Registration>, k: string, i: int) {
    && 0 <= i < |regs|
    && k in regs[i].keys
    && forall j :: i < j < |regs| ==> k !in regs[j].keys
  }

  /** A key is in the map exactly when some file registers it. */
  lemma {:induction false} RegisteredKeys(regs: seq<Registration>, k: string)
    ensures k in Register(regs) <==> exists i :: 0 <= i < |regs| && k in regs[i].keys
    decreases |regs|
  {
    if regs != [] {
      var n := |regs| - 1;
      var pre := regs[..n];
      RegisteredKeys(pre, k);
      assert forall i :: 0 <= i < n ==> regs[i] == pre[i];
      if k !in regs[n].keys && k !in Register(pre) {
        assert forall i :: 0 <= i < |regs| ==> k !in regs[i].keys;
      }
    }
  }

  /** What the last registration does to one key: it takes the key, or leaves it as it was. */
  lemma RegisterLastAt(regs: seq<Registration>, k: string)
    requires regs != []
    ensures k in regs[|regs| - 1].keys ==>
              k in Register(regs) && Register(regs)[k] == PromptsDir + regs[|regs| - 1].name
    ensures k !in regs[|regs| - 1].keys ==>
              (k in Register(regs) <==> k in Register(regs[..|regs| - 1]))
              && (k in Register(regs) ==> Register(regs)[k] == Register(regs[..|regs| - 1])[k])
  {
  }

  /** A key in the map points at the last file that registers it. */
  lemma {:induction false} LastWriterWins(regs: seq<Registration>, k: string)
    requires k in Register(regs)
    ensures exists i :: LastRegistrant(regs, k, i) && Register(regs)[k] == PromptsDir + regs[i].name
    decreases |regs|
  {
    var n := |regs| - 1;
    var pre := regs[..n];
    RegisterLastAt(regs, k);
    if k in regs[n].keys {
      assert LastRegistrant(regs, k, n);
    } else {
      LastWriterWins(pre, k);
      var i :| LastRegistrant(pre, k, i) && Register(pre)[k] == PromptsDir + pre[i].name;
      LastRegistrantExtends(regs, k, i);
    }
  }

  /** The last registrant of a prefix stays the last one when the next registration leaves the key alone. */
  lemma LastRegistrantExtends(regs: seq<Registration>, k: string, i: int)
    requires regs != [] && LastRegistrant(regs[..|regs| - 1], k, i) && k !in regs[|regs| - 1].keys
    ensures LastRegistrant(regs, k, i) && regs[i] == regs[..|regs| - 1][i]
  {
    var n := |regs| - 1;
    forall j | i < j < |regs| ensures k !in regs[j].keys {
      if j < n {
        assert regs[j] == regs[..n][j];
      }
    }
  }

  /** Every file of the directory is reachable by its name and by its stem. */
  lemma NamesAndStemsRegistered(fs: FileSystem, load: string -> YamlLoad, name: string)
    requires fs.promptsListing.Some? && name in fs.promptsListing.value && EndsWith(name, MdSuffix)
    ensures name in PromptAliases(fs, load) && Stem(name) in PromptAliases(fs, load)
  {
    var files := MdFiles(fs.promptsListing.value);
    var regs := Registrations(fs, load, files);
    var i :| 0 <= i < |files| && files[i] == name;
    RegisteredKeys(regs, name);
    RegisteredKeys(regs, Stem(name));
    assert name in regs[i].keys && Stem(name) in regs[i].keys;
  }

  /** A string listed under `alias` in a scanned file's front matter is a key of the map. */
  lemma DeclaredAliasRegistered(fs: FileSystem, load: string -> YamlLoad, name: string, a: string)
    requires fs.promptsListing.Some? && name in fs.promptsListing.value && EndsWith(name, MdSuffix)
    requires AliasListed(ParseFile(fs, load, PromptsDir + name).0, a)
    ensures a in PromptAliases(fs, load)
  {
    var files := MdFiles(fs.promptsListing.value);
    var regs := Registrations(fs, load, files);
    var i :| 0 <= i < |files| && files[i] == name;
    var keys := FileKeys(fs, load, name);
    assert a in keys[2..];
    assert a in regs[i].keys;
    RegisteredKeys(regs, a);
  }

  /** Every value of the map is the path of a `.md` file of the directory. */
  lemma ValuesAreTemplates(fs: FileSystem, load: string -> YamlLoad, k: string)
    requires k in PromptAliases(fs, load)
    ensures fs.promptsListing.Some?
    ensures exists name :: name in fs.promptsListing.value && EndsWith(name, MdSuffix)
                           && PromptAliases(fs, load)[k] == PromptsDir + name
  {
    var files := MdFiles(fs.promptsListing.value);
    var regs := Registrations(fs, load, files);
    LastWriterWins(regs, k);
    var i :| LastRegistrant(regs, k, i) && Register(regs)[k] == PromptsDir + regs[i].name;
    assert files[i] in files;
  }

  /**
   * When two files both declare an alias, the one that sorts last owns it:
   * with `a.md` and `b.md` both declaring `x`, `x` resolves to `b.md`.
   */
  lemma SharedAliasGoesToLastFile(fs: FileSystem, load: string -> YamlLoad, k: string, i: int)
    requires fs.promptsListing.Some?
    requires LastRegistrant(Registrations(fs, load, MdFiles(fs.promptsListing.value)), k, i)
    ensures k in PromptAliases(fs, load)
    ensures PromptAliases(fs, load)[k] == PromptsDir + MdFiles(fs.promptsListing.value)[i]
  {
    var regs := Registrations(fs, load, MdFiles(fs.promptsListing.value));
    RegisteredKeys(regs, k);
    LastWriterWins(regs, k);
    var i' :| LastRegistrant(regs, k, i') && Register(regs)[k] == PromptsDir + regs[i'].name;
    assert i == i';
  }

  /** The module-level alias map, rebuilt on request. */
  class PromptRegistry {
    var aliasMap: map<string, Path>

    /** Built once when the module is imported. */
    constructor (fs: FileSystem, load: string -> YamlLoad)
      ensures aliasMap == PromptAliases(fs, load)
    {
      var m := LoadPromptAliases(fs, load);
      aliasMap := m;
    }

    /** Replaces the map with one built from the current directory. */
    method Refresh(fs: FileSystem, load: string -> YamlLoad)
      modifies this
      ensures aliasMap == PromptAliases(fs, load)
    {
      aliasMap := LoadPromptAliases(fs, load);
    }

    /** The template registered under `name`, if any. */
    function Resolve(name: string): (r: Option<Path>)
      reads this
      ensures r.Some? <==> name in aliasMap
      ensures r.Some? ==> r.value == aliasMap[name]
    {
      if name in aliasMap then Some(aliasMap[name]) else None
    }
  }

  // ---------------------------------------------------------------------
  // Template text

  /** The text has front matter and its block loads: the case where the body replaces the text. */
  predicate Stripped(load: string -> YamlLoad, text: string) {
    SplitFrontMatter(text).FrontMatter? && load(SplitFrontMatter(text).block).Loaded?
  }

  /**
   * `load_prompt_content`: the body after the front matter, or the whole
   * text when that body is empty, or the fallback when the file cannot be
   * read.
   */
  function LoadPromptContent(fs: FileSystem, load: string -> YamlLoad, path: Path): (r: string)
    ensures Read(fs, path).None? ==> r == FallbackPrompt
    ensures Read(fs, path).Some? ==> IsSuffix(r, Read(fs, path).value)
    ensures Read(fs, path).Some? && Read(fs, path).value != [] ==> r != []
    ensures Read(fs, path).Some? && SplitFrontMatter(Read(fs, path).value).NoFrontMatter? ==> r == Read(fs, path).value
    ensures Read(fs, path).Some? ==>
              r == (if ParseFile(fs, load, path).1 != [] then ParseFile(fs, load, path).1 else Read(fs, path).value)
    ensures Read(fs, path).Some? && Stripped(load, Read(fs, path).value) ==>
              r == (if SplitFrontMatter(Read(fs, path).value).body != [] then SplitFrontMatter(Read(fs, path).value).body
                    else Read(fs, path).value)
  {
    match Read(fs, path)
    case None => FallbackPrompt
    case Some(content) =>
      var body := ParseFile(fs, load, path).1;
      if body != [] then body else content
  }

  /** A readable template whose front matter the loader rejects is used whole, delimiters included. */
  lemma RejectedFrontMatterKeptWhole(fs: FileSystem, load: string -> YamlLoad, path: Path)
    requires Read(fs, path).Some? && SplitFrontMatter(Read(fs, path).value).FrontMatter?
    requires load(SplitFrontMatter(Read(fs, path).value).block).YamlError?
    ensures LoadPromptContent(fs, load, path) == Read(fs, path).value
  {
  }

  /** A template written as front matter and a non-empty body loads as that body. */
  lemma {:induction false} TemplateBodyLoaded(fs: FileSystem, load: string -> YamlLoad, path: Path, block: string, body: string)
    requires block != [] && !IsSpace(block[0]) && !Contains(block, CloseMark)
    requires body != [] && !IsSpace(body[0])
    requires load(block).Loaded?
    requires Read(fs, path) == Some(Assemble(block, body))
    ensures LoadPromptContent(fs, load, path) == body
  {
    SplitRoundTrip(block, body);
  }

  /** `load_system_prompt`: the same rule applied to the judging template. */
  function LoadSystemPrompt(fs: FileSystem, load: string -> YamlLoad): (r: string)
    ensures Read(fs, SystemPromptJusticePath).None? ==> r == FallbackPrompt
    ensures Read(fs, SystemPromptJusticePath).Some? ==> IsSuffix(r, Read(fs, SystemPromptJusticePath).value)
    ensures Read(fs, SystemPromptJusticePath).Some? && SplitFrontMatter(Read(fs, SystemPromptJusticePath).value).NoFrontMatter? ==>
              r == Read(fs, SystemPromptJusticePath).value
    ensures Read(fs, SystemPromptJusticePath).Some? && Stripped(load, Read(fs, SystemPromptJusticePath).value) ==>
              r == (if SplitFrontMatter(Read(fs, SystemPromptJusticePath).value).body != []
                    then SplitFrontMatter(Read(fs, SystemPromptJusticePath).value).body
                    else Read(fs, SystemPromptJusticePath).value)
    ensures Read(fs, SystemPromptJusticePath).Some? ==>
              r == (if ParseFile(fs, load, SystemPromptJusticePath).1 != [] then ParseFile(fs, load, SystemPromptJusticePath).1
                    else Read(fs, SystemPromptJusticePath).value)
  {
    LoadPromptContent(fs, load, SystemPromptJusticePath)
  }
}
