/**
 * The analysis command (`ana` and its aliases): the access gate, the
 * transcript built from a quoted forward with its nesting kept, and the
 * decisions of the handler (flags, template override, template choice,
 * the `--short` directive).
 */
module ForwardAnalyse {
  import opened Wrappers
  import opened Text
  import opened FrontMatter
  import opened Files
  import opened Prompts
  import opened CmdAna
  import opened Events
  import opened Commands

  // ---------------------------------------------------------------------
  // Access gate

  /**
   * `check_user_permission`: private and group messages pass when the user
   * is allowed, group messages also when the group is allowed; everything
   * else is refused. (Both id lists and ids are compared as decimal
   * strings in the source; that conversion is injective, so membership is
   * the same on the integers.)
   */
  function CheckUserPermission(userAllow: seq<int>, groupAllow: seq<int>, e: Event): (r: bool)
    ensures r <==> (e.PrivateMessage? || e.GroupMessage?) && (e.userId in userAllow || (e.GroupMessage? && e.groupId in groupAllow))
  {
    if e.PrivateMessage? || e.GroupMessage? then
      if |userAllow| > 0 && e.userId in userAllow then true
      else if e.GroupMessage? && |groupAllow| > 0 && e.groupId in groupAllow then true
      else if |userAllow| == 0 && |groupAllow| == 0 then false
      else false
    else false
  }

  /** With both allow-lists empty nobody passes. */
  lemma EmptyAllowListsDenyAll(e: Event)
    ensures !CheckUserPermission([], [], e)
  {
  }

  /** A private message never passes through the group list. */
  lemma PrivateNotAdmittedByGroupList(userAllow: seq<int>, groupAllow: seq<int>, userId: int)
    requires userId !in userAllow
    ensures !CheckUserPermission(userAllow, groupAllow, PrivateMessage(userId))
  {
  }

  // ---------------------------------------------------------------------
  // Transcript with nesting kept

  /** A transcript entry: a `"{sender}: {text}"` line, or a nested bundle `[sender, mark, nested]`. */
  datatype Entry = Line(line: string) | Bundle(sender: string, mark: string, nested: seq<Entry>)

  /** The fixed middle element of a bundle entry. */
  const ForwardLabel: string := "合并转发"

  /** The entries of a list of forwarded messages, in order. */
  function Simple(nodes: seq<ForwardNode>): seq<Entry>
    decreases nodes
  {
    if nodes == [] then []
    else Simple(nodes[..|nodes| - 1]) + PartEntries(nodes[|nodes| - 1].sender, nodes[|nodes| - 1].messages)
  }

  /** The entries of the parts of one message, labelled with that message's sender. */
  function PartEntries(sender: string, parts: seq<SubMessage>): seq<Entry>
    decreases parts
  {
    if parts == [] then []
    else PartEntries(sender, parts[..|parts| - 1]) + PartEntry(sender, parts[|parts| - 1])
  }

  /** A text part gives a line, a forward part a bundle, any other part nothing. */
  function PartEntry(sender: string, part: SubMessage): seq<Entry>
    decreases part
  {
    match part
    case Text(t) => [Line(SenderLine(sender, t))]
    case Forward(content) => [Bundle(sender, ForwardLabel, Simple(content))]
    case OtherPart(_) => []
  }

  /**
   * `messageToSimple`: for each message, for each part, append a line or a
   * bundle built by the recursive call.
   */
  method MessageToSimple(messages: seq<ForwardNode>) returns (res: seq<Entry>)
    ensures res == Simple(messages)
    decreases messages
  {
    res := [];
    for k := 0 to |messages|
      invariant res == Simple(messages[..k])
    {
      var i := messages[k];
      var upperSender := i.sender;
      SimpleStep(messages, k);
      for j := 0 to |i.messages|
        invariant res == Simple(messages[..k]) + PartEntries(upperSender, i.messages[..j])
      {
        var message := i.messages[j];
        ghost var before := res;
        if message.Forward? {
          var nested := MessageToSimple(message.content);
          res := res + [Bundle(upperSender, ForwardLabel, nested)];
        }
        if message.Text? {
          res := res + [Line(SenderLine(upperSender, message.text))];
        }
        assert res == before + PartEntry(upperSender, message);
        PartEntriesExtend(Simple(messages[..k]), upperSender, i.messages, j, before, res);
      }
      assert i.messages[..|i.messages|] == i.messages;
    }
    assert messages[..|messages|] == messages;
  }

  /** One more message adds the entries of its parts. */
  lemma SimpleStep(nodes: seq<ForwardNode>, k: nat)
    requires k < |nodes|
    ensures Simple(nodes[..k + 1]) == Simple(nodes[..k]) + PartEntries(nodes[k].sender, nodes[k].messages)
  {
    assert nodes[..k + 1][..k] == nodes[..k];
  }

  /** One more part adds its own entry after those already collected. */
  lemma PartEntriesExtend(done: seq<Entry>, sender: string, ps: seq<SubMessage>, j: nat, before: seq<Entry>, after: seq<Entry>)
    requires j < |ps|
    requires before == done + PartEntries(sender, ps[..j])
    requires after == before + PartEntry(sender, ps[j])
    ensures after == done + PartEntries(sender, ps[..j + 1])
  {
    assert ps[..j + 1][..j] == ps[..j];
  }

  /** The transcript of two lists of messages is the two transcripts in order. */
  lemma {:induction false} SimpleAppend(a: seq<ForwardNode>, b: seq<ForwardNode>)
    ensures Simple(a + b) == Simple(a) + Simple(b)
    decreases |b|
  {
    if b == [] {
      assert a + b == a;
    } else {
      var n := |b| - 1;
      var ab := a + b;
      assert ab[..|ab| - 1] == a + b[..n];
      assert ab[|ab| - 1] == b[n];
      SimpleAppend(a, b[..n]);
      assert Simple(ab) == Simple(a + b[..n]) + PartEntries(b[n].sender, b[n].messages);
      assert Simple(b) == Simple(b[..n]) + PartEntries(b[n].sender, b[n].messages);
    }
  }

  /** A part is kept when it is text or a forward. */
  predicate Kept(part: SubMessage) {
    part.Text? || part.Forward?
  }

  /** The number of kept parts of one message. */
  function KeptParts(parts: seq<SubMessage>): nat {
    if parts == [] then 0
    else KeptParts(parts[..|parts| - 1]) + (if Kept(parts[|parts| - 1]) then 1 else 0)
  }

  /** The number of kept parts of the top-level messages (nested bundles count once). */
  function KeptTopLevel(nodes: seq<ForwardNode>): nat {
    if nodes == [] then 0
    else KeptTopLevel(nodes[..|nodes| - 1]) + KeptParts(nodes[|nodes| - 1].messages)
  }

  /** One entry per kept part of one message. */
  lemma {:induction false} PartEntriesLength(sender: string, parts: seq<SubMessage>)
    ensures |PartEntries(sender, parts)| == KeptParts(parts)
    decreases |parts|
  {
    if parts != [] {
      PartEntriesLength(sender, parts[..|parts| - 1]);
    }
  }

  /** The transcript has one entry per kept top-level part. */
  lemma {:induction false} SimpleLength(nodes: seq<ForwardNode>)
    ensures |Simple(nodes)| == KeptTopLevel(nodes)
    decreases |nodes|
  {
    if nodes != [] {
      SimpleLength(nodes[..|nodes| - 1]);
      PartEntriesLength(nodes[|nodes| - 1].sender, nodes[|nodes| - 1].messages);
    }
  }

  /**
   * Every entry of a message comes from one of its parts and carries that
   * message's sender: a line from a text part, a bundle from a forward part
   * with the nested transcript; and every text and forward part gives its
   * entry.
   */
  lemma {:induction false} PartEntriesFaithful(sender: string, parts: seq<SubMessage>)
    ensures forall e :: e in PartEntries(sender, parts) ==>
              || (e.Line? && exists t :: Text(t) in parts && e.line == SenderLine(sender, t))
              || (e.Bundle? && e.sender == sender && e.mark == ForwardLabel && exists c :: Forward(c) in parts && e.nested == Simple(c))
    ensures forall t :: Text(t) in parts ==> Line(SenderLine(sender, t)) in PartEntries(sender, parts)
    ensures forall c :: Forward(c) in parts ==> Bundle(sender, ForwardLabel, Simple(c)) in PartEntries(sender, parts)
    decreases |parts|
  {
    if parts != [] {
      var pre := parts[..|parts| - 1];
      var last := parts[|parts| - 1];
      PartEntriesFaithful(sender, pre);
      assert parts == pre + [last];
      assert forall m :: m in pre ==> m in parts;
    }
  }

  /**
   * Two levels: Alice's "hi" and a bundle holding Bob's "yo" give the line
   * "Alice: hi" and a bundle labelled with Alice holding "Bob: yo".
   */
  lemma TwoLevelExample()
    ensures Simple([ForwardNode("Alice", [Text("hi"), Forward([ForwardNode("Bob", [Text("yo")])])])])
            == [Line("Alice: hi"), Bundle("Alice", "合并转发", [Line("Bob: yo")])]
  {
    assert SenderLine("Bob", "yo") == "Bob: yo";
    assert SenderLine("Alice", "hi") == "Alice: hi";
    var inner := [ForwardNode("Bob", [Text("yo")])];
    assert PartEntries("Bob", [Text("yo")]) == [Line("Bob: yo")] by {
      assert [Text("yo")][..0] == [];
    }
    assert Simple(inner) == [Line("Bob: yo")] by {
      assert inner[..0] == [];
    }
    var parts := [Text("hi"), Forward(inner)];
    assert PartEntries("Alice", parts[..1]) == [Line("Alice: hi")] by {
      assert parts[..1] == [Text("hi")];
      assert parts[..1][..0] == [];
    }
    assert PartEntries("Alice", parts) == [Line("Alice: hi"), Bundle("Alice", "合并转发", [Line("Bob: yo")])];
    assert [ForwardNode("Alice", parts)][..0] == [];
  }

  // ---------------------------------------------------------------------
  // Handler decisions

  /** The directive `--short` appends to the system prompt. */
  const ShortSuffix: string := "\n⭐⭐**请用较短的篇幅回复**⭐⭐"

  /**
   * The template a `--prompt=` name designates: its entry in the alias map,
   * or else the name (with `.md` added when missing) inside the prompts
   * directory.
   */
  function ResolveOverride(aliasMap: map<string, Path>, name: string): (r: Path)
    ensures name in aliasMap ==> r == aliasMap[name]
    ensures name !in aliasMap ==> r == PromptsDir + WithMdSuffix(name)
  {
    if name in aliasMap then aliasMap[name] else PromptsDir + WithMdSuffix(name)
  }

  /** With the map built from the directory, an override is always a `.md` file of the prompts directory. */
  lemma OverrideIsMdInPromptsDir(fs: FileSystem, load: string -> YamlLoad, name: string)
    ensures exists f :: EndsWith(f, MdSuffix) && ResolveOverride(PromptAliases(fs, load), name) == PromptsDir + f
  {
    var m := PromptAliases(fs, load);
    if name in m {
      ValuesAreTemplates(fs, load, name);
    } else {
      assert EndsWith(WithMdSuffix(name), MdSuffix);
    }
  }

  /** The override the message asks for, if any. */
  function CustomPromptPath(aliasMap: map<string, Path>, text: string): (r: Option<Path>)
    ensures r.Some? <==> PromptArgument(text).Some?
    ensures r.Some? ==> r.value == ResolveOverride(aliasMap, PromptArgument(text).value)
  {
    match PromptArgument(text)
    case None => None
    case Some(name) => Some(ResolveOverride(aliasMap, name))
  }

  /**
   * The template used: an override that exists, else the template of the
   * command word, else the analysis template.
   */
  function SelectTemplate(fs: FileSystem, custom: Option<Path>, trigger: string): (r: Path)
    ensures custom.Some? && Exists(fs, custom.value) ==> r == custom.value
    ensures !(custom.Some? && Exists(fs, custom.value)) && trigger in CommandToPromptFilePath() ==>
              r == CommandToPromptFilePath()[trigger]
    ensures !(custom.Some? && Exists(fs, custom.value)) && trigger !in CommandToPromptFilePath() ==>
              r == SystemPromptAnaPath
  {
    if custom.Some? && Exists(fs, custom.value) then custom.value
    else if trigger in CommandToPromptFilePath() then CommandToPromptFilePath()[trigger]
    else SystemPromptAnaPath
  }

  /** Without a usable override, a command word of the table selects its own trigger's template. */
  lemma SelectTemplateByCommand(fs: FileSystem, custom: Option<Path>, i: int, trigger: string)
    requires 0 <= i < |Triggers| && trigger in Names(Triggers[i])
    requires !(custom.Some? && Exists(fs, custom.value))
    ensures SelectTemplate(fs, custom, trigger) == Triggers[i].promptFilePath
  {
    TriggersNamesDistinct();
    CommandMapSelectsOwnTemplate(Triggers, i, trigger);
  }

  /** The template used is the existing override or one of the table's templates. */
  lemma SelectedTemplateIsKnown(fs: FileSystem, custom: Option<Path>, trigger: string)
    ensures var r := SelectTemplate(fs, custom, trigger);
            (custom.Some? && r == custom.value && Exists(fs, r)) || exists t :: t in Triggers && r == t.promptFilePath
  {
    var r := SelectTemplate(fs, custom, trigger);
    if !(custom.Some? && Exists(fs, custom.value)) {
      if trigger in CommandToPromptFilePath() {
        CommandMapValues(Triggers, trigger);
      } else {
        assert Triggers[1] in Triggers;
      }
    }
  }

  /** The system prompt: the template's text, with the directive added under `--short`. */
  function SystemPrompt(fs: FileSystem, load: string -> YamlLoad, path: Path, text: string): (r: string)
    ensures Contains(text, ShortFlag) ==> r == LoadPromptContent(fs, load, path) + ShortSuffix
    ensures !Contains(text, ShortFlag) ==> r == LoadPromptContent(fs, load, path)
  {
    var content := LoadPromptContent(fs, load, path);
    if Contains(text, ShortFlag) then content + ShortSuffix else content
  }

  /** The allow-lists of the analysis command. */
  datatype AnaConfig = AnaConfig(userAllow: seq<int>, groupAllow: seq<int>)

  /** What the command does with a request. */
  datatype AnaOutcome =
    | Denied                   // the gate refuses; the handler never runs
    | ShowHelp                 // `--help`: the help page
    | ListPrompts              // `--prompts`: the alias map is rebuilt and the templates listed
    | AskForForward            // the usage hint
    | Analyse(promptPath: Path, systemPrompt: string, transcript: seq<Entry>)

  /** The decision of the gate and the handler, given the current alias map. */
  function AnaDecide(config: AnaConfig, aliasMap: map<string, Path>, fs: FileSystem, load: string -> YamlLoad, req: Request): (r: AnaOutcome)
    ensures r.Denied? <==> !CheckUserPermission(config.userAllow, config.groupAllow, req.event)
    ensures !r.Denied? ==> (r.ShowHelp? <==> Contains(req.text, HelpFlag))
    ensures r.ListPrompts? ==> !Contains(req.text, HelpFlag) && Contains(req.text, PromptsFlag)
    ensures !r.Denied? && !Contains(req.text, HelpFlag) ==> (r.ListPrompts? <==> Contains(req.text, PromptsFlag))
    ensures r.AskForForward? ==> QuotedForward(req).None?
    ensures !r.Denied? && !Contains(req.text, HelpFlag) && !Contains(req.text, PromptsFlag) ==>
              (r.AskForForward? <==> QuotedForward(req).None?)
    ensures r.Analyse? ==>
              && QuotedForward(req).Some?
              && !Contains(req.text, HelpFlag) && !Contains(req.text, PromptsFlag)
              && r.promptPath == SelectTemplate(fs, CustomPromptPath(aliasMap, req.text), req.trigger)
              && r.systemPrompt == SystemPrompt(fs, load, r.promptPath, req.text)
              && r.transcript == Simple(QuotedForward(req).value)
  {
    if !CheckUserPermission(config.userAllow, config.groupAllow, req.event) then Denied
    else if Contains(req.text, HelpFlag) then ShowHelp
    else if Contains(req.text, PromptsFlag) then ListPrompts
    else
      var custom := CustomPromptPath(aliasMap, req.text);
      match QuotedForward(req)
      case None => AskForForward
      case Some(content) =>
        var path := SelectTemplate(fs, custom, req.trigger);
        Analyse(path, SystemPrompt(fs, load, path, req.text), Simple(content))
  }

  /** An admitted request without flags and without a quoted forward gets the usage hint. */
  lemma NoQuoteAsksForForward(config: AnaConfig, aliasMap: map<string, Path>, fs: FileSystem, load: string -> YamlLoad, req: Request)
    requires CheckUserPermission(config.userAllow, config.groupAllow, req.event)
    requires !Contains(req.text, HelpFlag) && !Contains(req.text, PromptsFlag)
    requires QuotedForward(req).None?
    ensures AnaDecide(config, aliasMap, fs, load, req) == AskForForward
  {
  }

  /**
   * The handler on a request, with the module-level alias map held by
   * `registry`: `--prompts` rebuilds the map, nothing else touches it.
   */
  method HandleAnaCommand(config: AnaConfig, registry: PromptRegistry, fs: FileSystem, load: string -> YamlLoad, req: Request)
    returns (outcome: AnaOutcome)
    modifies registry
    ensures outcome == AnaDecide(config, old(registry.aliasMap), fs, load, req)
    ensures outcome.ListPrompts? ==> registry.aliasMap == PromptAliases(fs, load)
    ensures !outcome.ListPrompts? ==> registry.aliasMap == old(registry.aliasMap)
  {
    if !CheckUserPermission(config.userAllow, config.groupAllow, req.event) {
      return Denied;
    }
    if Contains(req.text, HelpFlag) {
      return ShowHelp;
    }
    if Contains(req.text, PromptsFlag) {
      registry.Refresh(fs, load);
      return ListPrompts;
    }
    var custom: Option<Path> := None;
    var argument := PromptArgument(req.text);
    if argument.Some? {
      var registered := registry.Resolve(argument.value);
      custom := if registered.Some? then registered else Some(PromptsDir + WithMdSuffix(argument.value));
    }
    assert custom == CustomPromptPath(registry.aliasMap, req.text);
    var quoted := QuotedForward(req);
    if quoted.None? {
      return AskForForward;
    }
    var path := SelectTemplate(fs, custom, req.trigger);
    var systemPrompt := SystemPrompt(fs, load, path, req.text);
    var transcript := MessageToSimple(quoted.value);
    return Analyse(path, systemPrompt, transcript);
  }
}
