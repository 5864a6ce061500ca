/**
 * The judging command (`justice` and its aliases): its own user gate, the
 * fully flattened transcript, and the choice between a `--prompt=`
 * template of its own directory and its default template, both used as
 * raw text.
 */
module Justice {
  import opened Wrappers
  import opened Text
  import opened Files
  import opened Prompts
  import opened CmdAna
  import opened Events
  import opened Commands
  import ForwardAnalyse

  const JusticePluginDir: Path := "plugins/justice/"
  const JusticePromptsDir: Path := JusticePluginDir + "prompts/"
  const PromptTemplatePath: Path := JusticePromptsDir + "alignment_prompt.md"

  /** The command words this handler is registered for. */
  const JusticeCommandNames: set<string> := {"justice", "蜻蜓队长", "正义", "天降正义", "裁判"}

  /**
   * Every word of the judging command is also a word of the analysis
   * command, so both handlers answer it; `对线` reaches only the analysis
   * command.
   */
  lemma JusticeWordsAlsoTriggerAna()
    ensures forall n :: n in JusticeCommandNames ==> IsCommandName(Triggers, n)
    ensures "对线" !in JusticeCommandNames && IsCommandName(Triggers, "对线")
  {
    assert forall n :: n in JusticeCommandNames ==> n in Names(Triggers[0]);
    assert "对线" in Names(Triggers[0]);
  }

  // ---------------------------------------------------------------------
  // Access gate

  /** `check_user_permission`: private and group messages of an allowed user; an empty list refuses everyone. */
  function CheckUserPermission(userAllow: seq<int>, e: Event): (r: bool)
    ensures r <==> (e.PrivateMessage? || e.GroupMessage?) && e.userId in userAllow
  {
    if e.PrivateMessage? || e.GroupMessage? then
      if |userAllow| == 0 then false else e.userId in userAllow
    else false
  }

  /** An empty allow-list refuses every event. */
  lemma EmptyAllowListDeniesAll(e: Event)
    ensures !CheckUserPermission([], e)
  {
  }

  // ---------------------------------------------------------------------
  // Flattened transcript

  /** The lines of a list of forwarded messages, nested bundles spliced in place. */
  function Flat(nodes: seq<ForwardNode>): seq<string>
    decreases nodes
  {
    if nodes == [] then []
    else Flat(nodes[..|nodes| - 1]) + FlatParts(nodes[|nodes| - 1].sender, nodes[|nodes| - 1].messages)
  }

  /** The lines of the parts of one message. */
  function FlatParts(sender: string, parts: seq<SubMessage>): seq<string>
    decreases parts
  {
    if parts == [] then []
    else FlatParts(sender, parts[..|parts| - 1]) + FlatPart(sender, parts[|parts| - 1])
  }

  /** A text part gives its line, a forward part the lines of its bundle, any other part nothing. */
  function FlatPart(sender: string, part: SubMessage): seq<string>
    decreases part
  {
    match part
    case Text(t) => [SenderLine(sender, t)]
    case Forward(content) => Flat(content)
    case OtherPart(_) => []
  }

  /**
   * `extractListMessage`: for each message, for each part, append a line or
   * extend with the lines of the recursive call.
   */
  method ExtractListMessage(messages: seq<ForwardNode>) returns (res: seq<string>)
    ensures res == Flat(messages)
    decreases messages
  {
    res := [];
    for k := 0 to |messages|
      invariant res == Flat(messages[..k])
    {
      var i := messages[k];
      var upperSender := i.sender;
      FlatStep(messages, k);
      for j := 0 to |i.messages|
        invariant res == Flat(messages[..k]) + FlatParts(upperSender, i.messages[..j])
      {
        var message := i.messages[j];
        ghost var before := res;
        if message.Forward? {
          var nested := ExtractListMessage(message.content);
          res := res + nested;
        }
        if message.Text? {
          res := res + [SenderLine(upperSender, message.text)];
        }
        assert res == before + FlatPart(upperSender, message);
        FlatPartsExtend(Flat(messages[..k]), upperSender, i.messages, j, before, res);
      }
      assert i.messages[..|i.messages|] == i.messages;
    }
    assert messages[..|messages|] == messages;
  }

  /** One more message adds the lines of its parts. */
  lemma FlatStep(nodes: seq<ForwardNode>, k: nat)
    requires k < |nodes|
    ensures Flat(nodes[..k + 1]) == Flat(nodes[..k]) + FlatParts(nodes[k].sender, nodes[k].messages)
  {
    assert nodes[..k + 1][..k] == nodes[..k];
  }

  /** One more part adds its own lines after those already collected. */
  lemma FlatPartsExtend(done: seq<string>, sender: string, ps: seq<SubMessage>, j: nat, before: seq<string>, after: seq<string>)
    requires j < |ps|
    requires before == done + FlatParts(sender, ps[..j])
    requires after == before + FlatPart(sender, ps[j])
    ensures after == done + FlatParts(sender, ps[..j + 1])
  {
    assert ps[..j + 1][..j] == ps[..j];
  }

  /** The number of text parts at any depth. */
  function TextLeaves(nodes: seq<ForwardNode>): nat
    decreases nodes
  {
    if nodes == [] then 0
    else TextLeaves(nodes[..|nodes| - 1]) + PartLeaves(nodes[|nodes| - 1].messages)
  }

  function PartLeaves(parts: seq<SubMessage>): nat
    decreases parts
  {
    if parts == [] then 0
    else PartLeaves(parts[..|parts| - 1]) + PartLeaf(parts[|parts| - 1])
  }

  function PartLeaf(part: SubMessage): nat
    decreases part
  {
    match part
    case Text(_) => 1
    case Forward(content) => TextLeaves(content)
    case OtherPart(_) => 0
  }

  /** One line per text part, however deep. */
  lemma {:induction false} FlatLength(nodes: seq<ForwardNode>)
    ensures |Flat(nodes)| == TextLeaves(nodes)
    decreases nodes, 2
  {
    if nodes != [] {
      var last := nodes[|nodes| - 1];
      FlatLength(nodes[..|nodes| - 1]);
      FlatPartsLength(last.sender, last.messages);
    }
  }

  lemma {:induction false} FlatPartsLength(sender: string, parts: seq<SubMessage>)
    ensures |FlatParts(sender, parts)| == PartLeaves(parts)
    decreases parts, 1
  {
    if parts != [] {
      FlatPartsLength(sender, parts[..|parts| - 1]);
      FlatPartLength(sender, parts[|parts| - 1]);
    }
  }

  lemma {:induction false} FlatPartLength(sender: string, part: SubMessage)
    ensures |FlatPart(sender, part)| == PartLeaf(part)
    decreases part, 0
  {
    if part.Forward? {
      FlatLength(part.content);
    }
  }

  /** The lines of two lists of messages are the two line lists in order. */
  lemma {:induction false} FlatAppend(a: seq<ForwardNode>, b: seq<ForwardNode>)
    ensures Flat(a + b) == Flat(a) + Flat(b)
    decreases |b|
  {
    if b == [] {
      assert a + b == a;
    } else {
      var n := |b| - 1;
      var ab := a + b;
      assert ab[..|ab| - 1] == a + b[..n];
      assert ab[|ab| - 1] == b[n];
      FlatAppend(a, b[..n]);
      assert Flat(ab) == Flat(a + b[..n]) + FlatParts(b[n].sender, b[n].messages);
      assert Flat(b) == Flat(b[..n]) + FlatParts(b[n].sender, b[n].messages);
    }
  }

  /**
   * A line is labelled with the sender of the message that holds the text:
   * a message's text gives its own sender's line, and a forwarded bundle
   * contributes its inner lines unchanged, without the outer sender.
   */
  lemma InnermostSenderLabels(sender: string, t: string, inner: seq<ForwardNode>)
    ensures Flat([ForwardNode(sender, [Text(t)])]) == [SenderLine(sender, t)]
    ensures Flat([ForwardNode(sender, [Forward(inner)])]) == Flat(inner)
  {
    var leaf := [ForwardNode(sender, [Text(t)])];
    assert leaf[..0] == [] && [Text(t)][..0] == [];
    assert FlatParts(sender, [Text(t)]) == FlatParts(sender, []) + FlatPart(sender, Text(t));
    assert Flat(leaf) == Flat([]) + FlatParts(sender, [Text(t)]);
    var bundle := [ForwardNode(sender, [Forward(inner)])];
    assert bundle[..0] == [] && [Forward(inner)][..0] == [];
    assert FlatParts(sender, [Forward(inner)]) == FlatParts(sender, []) + FlatPart(sender, Forward(inner));
    assert Flat(bundle) == Flat([]) + FlatParts(sender, [Forward(inner)]);
  }

  /**
   * The lines of one message, whatever its parts: each is the labelled line
   * of one of its text parts or a line of one of its forwarded bundles, and
   * every such line is there.
   */
  lemma {:induction false} FlatPartsFaithful(sender: string, parts: seq<SubMessage>)
    ensures forall l :: l in FlatParts(sender, parts) ==>
              || (exists t :: Text(t) in parts && l == SenderLine(sender, t))
              || (exists c :: Forward(c) in parts && l in Flat(c))
    ensures forall t :: Text(t) in parts ==> SenderLine(sender, t) in FlatParts(sender, parts)
    ensures forall c, l :: Forward(c) in parts && l in Flat(c) ==> l in FlatParts(sender, parts)
    decreases |parts|
  {
    if parts != [] {
      var pre := parts[..|parts| - 1];
      var last := parts[|parts| - 1];
      FlatPartsFaithful(sender, pre);
      assert parts == pre + [last];
      assert forall m :: m in pre ==> m in parts;
    }
  }

  /** The lines of a transcript with nesting kept, read depth-first. */
  function Texts(entries: seq<ForwardAnalyse.Entry>): seq<string>
    decreases entries
  {
    if entries == [] then []
    else Texts(entries[..|entries| - 1]) + EntryTexts(entries[|entries| - 1])
  }

  function EntryTexts(e: ForwardAnalyse.Entry): seq<string>
    decreases e
  {
    match e
    case Line(l) => [l]
    case Bundle(_, _, nested) => Texts(nested)
  }

  lemma {:induction false} TextsAppend(a: seq<ForwardAnalyse.Entry>, b: seq<ForwardAnalyse.Entry>)
    ensures Texts(a + b) == Texts(a) + Texts(b)
    decreases |b|
  {
    if b == [] {
      assert a + b == a;
    } else {
      var n := |b| - 1;
      var ab := a + b;
      assert ab[..|ab| - 1] == a + b[..n];
      assert ab[|ab| - 1] == b[n];
      TextsAppend(a, b[..n]);
    }
  }

  /**
   * The flattened transcript is the nested one read depth-first with the
   * bundle entries dissolved.
   */
  lemma {:induction false} FlatIsTextsOfSimple(nodes: seq<ForwardNode>)
    ensures Flat(nodes) == Texts(ForwardAnalyse.Simple(nodes))
    decreases nodes, 2
  {
    if nodes != [] {
      var pre := nodes[..|nodes| - 1];
      var last := nodes[|nodes| - 1];
      FlatIsTextsOfSimple(pre);
      FlatPartsIsTexts(last.sender, last.messages);
      TextsAppend(ForwardAnalyse.Simple(pre), ForwardAnalyse.PartEntries(last.sender, last.messages));
    }
  }

  lemma {:induction false} FlatPartsIsTexts(sender: string, parts: seq<SubMessage>)
    ensures FlatParts(sender, parts) == Texts(ForwardAnalyse.PartEntries(sender, parts))
    decreases parts, 1
  {
    if parts != [] {
      var pre := parts[..|parts| - 1];
      var last := parts[|parts| - 1];
      FlatPartsIsTexts(sender, pre);
      FlatPartIsTexts(sender, last);
      TextsAppend(ForwardAnalyse.PartEntries(sender, pre), ForwardAnalyse.PartEntry(sender, last));
    }
  }

  lemma {:induction false} FlatPartIsTexts(sender: string, part: SubMessage)
    ensures FlatPart(sender, part) == Texts(ForwardAnalyse.PartEntry(sender, part))
    decreases part, 0
  {
    match part
    case Text(t) =>
      var es := [ForwardAnalyse.Line(SenderLine(sender, t))];
      assert es[..0] == [];
    case Forward(content) =>
      var es := [ForwardAnalyse.Bundle(sender, ForwardAnalyse.ForwardLabel, ForwardAnalyse.Simple(content))];
      assert es[..0] == [];
      FlatIsTextsOfSimple(content);
    case OtherPart(_) =>
  }

  // ---------------------------------------------------------------------
  // Templates and decisions

  /** `load_system_prompt`: the raw text of the default template, front matter included, or the fallback. */
  function LoadSystemPrompt(fs: FileSystem): (r: string)
    ensures Read(fs, PromptTemplatePath).None? ==> r == FallbackPrompt
    ensures Read(fs, PromptTemplatePath).Some? ==> r == Read(fs, PromptTemplatePath).value
  {
    match Read(fs, PromptTemplatePath)
    case None => FallbackPrompt
    case Some(content) => content
  }

  /** The `--prompt=` template: always the name with `.md` completed, inside this plugin's prompts directory. */
  function CustomPromptPath(text: string): (r: Option<Path>)
    ensures r.Some? <==> PromptArgument(text).Some?
    ensures r.Some? ==> r.value == JusticePromptsDir + WithMdSuffix(PromptArgument(text).value)
    ensures r.Some? ==> EndsWith(r.value, MdSuffix)
  {
    match PromptArgument(text)
    case None => None
    case Some(name) =>
      var file := WithMdSuffix(name);
      assert (JusticePromptsDir + file)[|JusticePromptsDir + file| - |MdSuffix|..] == file[|file| - |MdSuffix|..];
      Some(JusticePromptsDir + file)
  }

  /**
   * `load_custom_or_default_prompt`: the override's raw text when it exists
   * and can be read, otherwise the default template.
   */
  function LoadCustomOrDefault(fs: FileSystem, custom: Option<Path>): (r: string)
    ensures custom.Some? && Read(fs, custom.value).Some? ==> r == Read(fs, custom.value).value
    ensures !(custom.Some? && Read(fs, custom.value).Some?) ==> r == LoadSystemPrompt(fs)
  {
    if custom.Some? && Exists(fs, custom.value) then
      match Read(fs, custom.value)
      case Some(content) => content
      case None => LoadSystemPrompt(fs)
    else LoadSystemPrompt(fs)
  }

  /** What the judging command does with a request. */
  datatype JusticeOutcome =
    | Denied                   // the gate refuses; the handler never runs
    | ListPrompts              // `--prompts`: the templates of this plugin are listed
    | RenderTestPage           // `--test-html`: the test page is rendered
    | AskForForward            // the usage hint
    | Judge(systemPrompt: string, chatText: string)

  /** The decision of the gate and the handler. */
  function JusticeDecide(userAllow: seq<int>, fs: FileSystem, req: Request): (r: JusticeOutcome)
    ensures r.Denied? <==> !CheckUserPermission(userAllow, req.event)
    ensures !r.Denied? ==> (r.ListPrompts? <==> Contains(req.text, PromptsFlag))
    ensures r.RenderTestPage? ==> !Contains(req.text, PromptsFlag) && Contains(req.text, TestHtmlFlag)
    ensures !r.Denied? && !Contains(req.text, PromptsFlag) ==> (r.RenderTestPage? <==> Contains(req.text, TestHtmlFlag))
    ensures r.AskForForward? ==> QuotedForward(req).None?
    ensures !r.Denied? && !Contains(req.text, PromptsFlag) && !Contains(req.text, TestHtmlFlag) ==>
              (r.AskForForward? <==> QuotedForward(req).None?)
    ensures r.Judge? ==>
              && QuotedForward(req).Some?
              && !Contains(req.text, PromptsFlag) && !Contains(req.text, TestHtmlFlag)
              && r.systemPrompt == LoadCustomOrDefault(fs, CustomPromptPath(req.text))
              && r.chatText == Join(Flat(QuotedForward(req).value), "\n")
  {
    if !CheckUserPermission(userAllow, req.event) then Denied
    else if Contains(req.text, PromptsFlag) then ListPrompts
    else if Contains(req.text, TestHtmlFlag) then RenderTestPage
    else
      var custom := CustomPromptPath(req.text);
      match QuotedForward(req)
      case None => AskForForward
      case Some(content) => Judge(LoadCustomOrDefault(fs, custom), Join(Flat(content), "\n"))
  }

  /**
   * The handler as the source runs it: the flags, then the override, then
   * the quoted forward, flattened by the loop.
   */
  method HandleJusticeCommand(userAllow: seq<int>, fs: FileSystem, req: Request) returns (outcome: JusticeOutcome)
    ensures outcome == JusticeDecide(userAllow, fs, req)
  {
    if !CheckUserPermission(userAllow, req.event) {
      return Denied;
    }
    if Contains(req.text, PromptsFlag) {
      return ListPrompts;
    }
    if Contains(req.text, TestHtmlFlag) {
      return RenderTestPage;
    }
    var custom := CustomPromptPath(req.text);
    var quoted := QuotedForward(req);
    if quoted.None? {
      return AskForForward;
    }
    var lines := ExtractListMessage(quoted.value);
    var chatText := Join(lines, "\n");
    var systemPrompt := LoadCustomOrDefault(fs, custom);
    return Judge(systemPrompt, chatText);
  }
}
