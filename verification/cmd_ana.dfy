/**
 * The command table of the analysis command: every trigger key and alias
 * is a command name, and each name selects its trigger's template.
 */
module CmdAna {
  import opened Files
  import opened Prompts

  /** The command names one trigger contributes: its key, then its aliases. */
  function Names(t: Trigger): seq<string>
  {
    [t.key] + t.aliases
  }

  /** `n` is the key or an alias of some trigger of the table. */
  ghost predicate IsCommandName(triggers: seq<Trigger>, n: string) {
    exists i :: 0 <= i < |triggers| && n in Names(triggers[i])
  }

  /** `get_all_aliases`: every trigger key and every alias, and nothing else. */
  method GetAllAliases(triggers: seq<Trigger>) returns (allAliases: set<string>)
    ensures forall n :: n in allAliases <==> IsCommandName(triggers, n)
  {
    allAliases := {};
    for i := 0 to |triggers|
      invariant forall n :: n in allAliases <==> IsCommandName(triggers[..i], n)
    {
      var cfg := triggers[i];
      allAliases := allAliases + {cfg.key};
      allAliases := allAliases + (set a | a in cfg.aliases);
      forall n ensures IsCommandName(triggers[..i + 1], n) <==> IsCommandName(triggers[..i], n) || n in Names(cfg) {
        if IsCommandName(triggers[..i + 1], n) && !(n in Names(cfg)) {
          var k :| 0 <= k < i + 1 && n in Names(triggers[..i + 1][k]);
          assert triggers[..i][k] == triggers[k];
        }
        if IsCommandName(triggers[..i], n) {
          var k :| 0 <= k < i && n in Names(triggers[..i][k]);
          assert triggers[..i + 1][k] == triggers[k];
        }
        if n in Names(cfg) {
          assert triggers[..i + 1][i] == cfg;
        }
      }
    }
    assert triggers[..|triggers|] == triggers;
  }

  /** The map after registering the triggers in order, later ones overwriting. */
  function CommandMap(triggers: seq<Trigger>): map<string, Path>
  {
    if triggers == [] then map[]
    else
      var last := triggers[|triggers| - 1];
      PutAll(CommandMap(triggers[..|triggers| - 1]), Names(last), last.promptFilePath)
  }

  /**
   * `build_command_to_prompt_map`: each trigger assigns its key and then
   * each of its aliases to its template.
   */
  method BuildCommandToPromptMap(triggers: seq<Trigger>) returns (commandMap: map<string, Path>)
    ensures commandMap == CommandMap(triggers)
  {
    commandMap := map[];
    for i := 0 to |triggers|
      invariant commandMap == CommandMap(triggers[..i])
    {
      commandMap := AssignTrigger(commandMap, triggers[i]);
      CommandMapStep(triggers, i);
    }
    assert triggers[..|triggers|] == triggers;
  }

  /** One pass of the outer loop: the key, then each alias, all selecting the trigger's template. */
  method AssignTrigger(commandMap: map<string, Path>, cfg: Trigger) returns (updated: map<string, Path>)
    ensures updated == PutAll(commandMap, Names(cfg), cfg.promptFilePath)
  {
    var promptFilePath := cfg.promptFilePath;
    updated := commandMap[cfg.key := promptFilePath];
    assert updated == PutAll(commandMap, [cfg.key] + cfg.aliases[..0], promptFilePath) by {
      assert [cfg.key] + cfg.aliases[..0] == [cfg.key];
      assert [cfg.key][..0] == [];
    }
    for j := 0 to |cfg.aliases|
      invariant updated == PutAll(commandMap, [cfg.key] + cfg.aliases[..j], promptFilePath)
    {
      PutAllSnoc(commandMap, [cfg.key] + cfg.aliases[..j], cfg.aliases[j], promptFilePath);
      assert [cfg.key] + cfg.aliases[..j + 1] == [cfg.key] + cfg.aliases[..j] + [cfg.aliases[j]];
      updated := updated[cfg.aliases[j] := promptFilePath];
    }
    assert cfg.aliases[..|cfg.aliases|] == cfg.aliases;
  }

  /** The map after one more trigger. */
  lemma CommandMapStep(triggers: seq<Trigger>, i: nat)
    requires i < |triggers|
    ensures CommandMap(triggers[..i + 1]) == PutAll(CommandMap(triggers[..i]), Names(triggers[i]), triggers[i].promptFilePath)
  {
    assert triggers[..i + 1][..i] == triggers[..i];
  }

  /** Trigger `i` is the last one naming `n`. */
  ghost predicate LastNaming(triggers: seq<Trigger>, n: string, i: int) {
    && 0 <= i < |triggers|
    && n in Names(triggers[i])
    && forall j :: i < j < |triggers| ==> n !in Names(triggers[j])
  }

  /** A name the last trigger does not declare keeps its last naming trigger. */
  lemma LastNamingExtend(triggers: seq<Trigger>, n: string, i: int)
    requires triggers != []
    requires LastNaming(triggers[..|triggers| - 1], n, i)
    requires n !in Names(triggers[|triggers| - 1])
    ensures LastNaming(triggers, n, i)
  {
    var pre := triggers[..|triggers| - 1];
    assert forall j :: 0 <= j < |pre| ==> triggers[j] == pre[j];
  }

  /** The names in the command map are exactly the keys and aliases of the table. */
  lemma {:induction false} CommandMapKeys(triggers: seq<Trigger>, n: string)
    ensures n in CommandMap(triggers) <==> IsCommandName(triggers, n)
    decreases |triggers|
  {
    if triggers != [] {
      var last := |triggers| - 1;
      var pre := triggers[..last];
      CommandMapKeys(pre, n);
      assert forall i :: 0 <= i < last ==> triggers[i] == pre[i];
      if n !in Names(triggers[last]) && n !in CommandMap(pre) {
        assert forall i :: 0 <= i < |triggers| ==> n !in Names(triggers[i]);
      }
    }
  }

  /** A name in the command map selects the template of the last trigger naming it. */
  lemma {:induction false} CommandMapLookup(triggers: seq<Trigger>, n: string)
    requires n in CommandMap(triggers)
    ensures exists i :: LastNaming(triggers, n, i) && CommandMap(triggers)[n] == triggers[i].promptFilePath
    decreases |triggers|
  {
    var last := |triggers| - 1;
    var pre := triggers[..last];
    assert CommandMap(triggers) == PutAll(CommandMap(pre), Names(triggers[last]), triggers[last].promptFilePath);
    if n in Names(triggers[last]) {
      assert LastNaming(triggers, n, last);
    } else {
      CommandMapLookup(pre, n);
      var i :| LastNaming(pre, n, i) && CommandMap(pre)[n] == pre[i].promptFilePath;
      LastNamingExtend(triggers, n, i);
      assert LastNaming(triggers, n, i);
    }
  }

  /** No two triggers of the table share a command name. */
  ghost predicate NamesDistinct(triggers: seq<Trigger>) {
    forall i, j, n :: 0 <= i < j < |triggers| && n in Names(triggers[i]) ==> n !in Names(triggers[j])
  }

  /** In a table without repeated names, every name selects its own trigger's template. */
  lemma CommandMapSelectsOwnTemplate(triggers: seq<Trigger>, i: int, n: string)
    requires NamesDistinct(triggers)
    requires 0 <= i < |triggers| && n in Names(triggers[i])
    ensures n in CommandMap(triggers) && CommandMap(triggers)[n] == triggers[i].promptFilePath
  {
    CommandMapKeys(triggers, n);
    CommandMapLookup(triggers, n);
    var k :| LastNaming(triggers, n, k) && CommandMap(triggers)[n] == triggers[k].promptFilePath;
    assert k == i;
  }

  /** Every template the command map selects is the template of some trigger. */
  lemma CommandMapValues(triggers: seq<Trigger>, n: string)
    requires n in CommandMap(triggers)
    ensures exists t :: t in triggers && CommandMap(triggers)[n] == t.promptFilePath
  {
    CommandMapLookup(triggers, n);
    var i :| LastNaming(triggers, n, i) && CommandMap(triggers)[n] == triggers[i].promptFilePath;
    assert triggers[i] in triggers;
  }

  /** `commandToPromptFilePath`, built once from the trigger table. */
  function CommandToPromptFilePath(): map<string, Path> {
    CommandMap(Triggers)
  }

  /** The names of `pov` are not names of `blank`. */
  lemma PovNamesNotRepeated()
    ensures forall n :: n in Names(Triggers[2]) ==> n !in Names(Triggers[3])
  {
  }

  /** The names of `ana` are not names of `pov` or `blank`. */
  lemma AnaNamesNotRepeated()
    ensures forall n :: n in Names(Triggers[1]) ==> n !in Names(Triggers[2]) && n !in Names(Triggers[3])
  {
  }

  /** The names of `justice` are not names of `ana`, `pov` or `blank`. */
  lemma JusticeNamesNotRepeated()
    ensures forall n :: n in Names(Triggers[0]) ==> n !in Names(Triggers[1])
    ensures forall n :: n in Names(Triggers[0]) ==> n !in Names(Triggers[2]) && n !in Names(Triggers[3])
  {
  }

  /** The shipped table declares no name twice. */
  lemma TriggersNamesDistinct()
    ensures NamesDistinct(Triggers)
  {
    PovNamesNotRepeated();
    AnaNamesNotRepeated();
    JusticeNamesNotRepeated();
  }

  /** Every name of every shipped trigger selects that trigger's template. */
  lemma TriggerNamesSelectOwnTemplate(i: int, n: string)
    requires 0 <= i < |Triggers| && n in Names(Triggers[i])
    ensures n in CommandToPromptFilePath() && CommandToPromptFilePath()[n] == Triggers[i].promptFilePath
  {
    TriggersNamesDistinct();
    CommandMapSelectsOwnTemplate(Triggers, i, n);
  }

  /**
   * `blank` and all its aliases select the POV template, like `pov` itself;
   * `analyse` selects the analysis template.
   */
  lemma ShippedCommandTable()
    ensures forall n :: n in Names(Triggers[3]) ==> n in CommandToPromptFilePath() && CommandToPromptFilePath()[n] == SystemPromptPovPath
    ensures "pov" in CommandToPromptFilePath() && CommandToPromptFilePath()["pov"] == SystemPromptPovPath
    ensures "analyse" in CommandToPromptFilePath() && CommandToPromptFilePath()["analyse"] == SystemPromptAnaPath
    ensures "对线" in CommandToPromptFilePath() && CommandToPromptFilePath()["对线"] == SystemPromptJusticePath
  {
    forall n | n in Names(Triggers[3])
      ensures n in CommandToPromptFilePath() && CommandToPromptFilePath()[n] == SystemPromptPovPath
    {
      TriggerNamesSelectOwnTemplate(3, n);
    }
    assert "pov" in Names(Triggers[2]) && "analyse" in Names(Triggers[1]) && "对线" in Names(Triggers[0]);
    TriggerNamesSelectOwnTemplate(2, "pov");
    TriggerNamesSelectOwnTemplate(1, "analyse");
    TriggerNamesSelectOwnTemplate(0, "对线");
  }
}
