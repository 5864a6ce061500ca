# QriBot prompt resolution and transcript flattening, in Dafny

This project models the decision core behind two chat commands of the QriBot plugins:

- `ana`, in `plugins/foward_analyse`, analyses a quoted bundle of forwarded chat messages with a chosen prompt template.
- `justice`, in `plugins/justice`, judges such a bundle.

The model covers these parts:

- **Access gates.** The ana gate has a user allow-list plus a group allow-list. The justice gate has a user allow-list only.
- **Transcript flatteners.** `messageToSimple` keeps the nesting of forwarded bundles. `extractListMessage` flattens them completely.
- **Front-matter splitter.** The regular expression `^---\s*\n(.*?)\n---\s*\n(.*)$` is modelled with the backtracking order of Python's engine: the greedy opening whitespace, the lazy block that stops at the first closing delimiter, and the greedy closing whitespace. YAML loading is a function parameter that either yields a value or fails.
- **Template registry.** `load_prompt_aliases` registers, file by file in sorted order, the file name, then its stem, then each string alias, and the last writer wins. The model also covers `load_prompt_content` and `load_system_prompt`.
- **Trigger table.** This covers `get_all_aliases`, `build_command_to_prompt_map` and the static `triggers` table.
- **Handler decisions.** The request decisions of both handlers are modelled: flag priority, resolution of `--prompt=`, the quoted-forward requirement, template precedence and the `--short` suffix. Each handler also has a method that follows the source's order of steps.

Modules:

| module | what it holds |
|---|---|
| `Wrappers` | `Option` |
| `Text` | character classes, substring search (Python's `in`), suffixes, joins, code-point string order and sorting |
| `FrontMatter` | the front-matter split and `parse_yaml_front_matter` |
| `Files` | the file system as a map from full path to optional text, plus the listing of the ana prompts directory; the `.md` completion rule |
| `Prompts` | `prompts.py`: template paths, the `triggers` table, the alias registry as a loop method and as a class whose field a refresh replaces, template loading |
| `CmdAna` | `cmd_ana.py`: the alias set and the command-to-template map, as loop methods proved against fold functions |
| `Events` | message events, replies and the forwarded-message tree |
| `Commands` | the shared flags and the `--prompt=([\w\-\.]+)` search |
| `ForwardAnalyse` | `plugins/foward_analyse/__init__.py`: gate, `messageToSimple`, the `ana` decisions |
| `Justice` | `plugins/justice/__init__.py`: gate, `extractListMessage`, custom-or-default template, the `justice` decisions |

### Behaviour worth noting

- A nested bundle's label is `合并转发`.
- An unknown `--prompt=` name is not a usage error. A name missing from the alias map falls through to `prompts/<name>.md`. When that file does not exist, the trigger's template is used, and failing that the default.
- A template whose front matter fails to load is used as its raw file text, delimiters included: the parse returns an empty body. The fallback prompt is used only when the file cannot be read.
- The justice handler's command words do not include `对线`, although `对线` is listed under `justice` in the ana trigger table. Every justice command word is also an ana command word, so both handlers answer those words.

## Model

| member | source | states |
|---|---|---|
| Text.Contains | plugins/foward_analyse/__init__.py:122 | Python's `needle in text`: true exactly when the needle occurs at some position |
| Text.Sort | plugins/foward_analyse/prompts.py:83 | `sorted(...)` of file names: the result is ordered by code points and is a permutation of the input |
| FrontMatter.RunEndSpec | plugins/foward_analyse/prompts.py:55 | a `\s*` starting at a position covers exactly the maximal run of whitespace there |
| FrontMatter.SpacesNewlineSpec | plugins/foward_analyse/prompts.py:55 | `\s*\n` ends on a newline reached over whitespace only, and on the last such newline (the star is greedy) |
| FrontMatter.FirstClosingFirst | plugins/foward_analyse/prompts.py:55 | the lazy block: the closing delimiter found is at or before every closing delimiter after its start |
| FrontMatter.OpeningSearchLatest | plugins/foward_analyse/prompts.py:55 | backtracking over the opening whitespace picks the last newline that some closing delimiter follows |
| FrontMatter.GreedyOpening | plugins/foward_analyse/prompts.py:55 | once the search has picked an opening, no later opening newline is followed by any closing delimiter |
| FrontMatter.MatchFrontMatter | plugins/foward_analyse/prompts.py:55-56 | a match locates an opening line, a closing `\n---` and a body start in that order inside the text |
| FrontMatter.MatchSemantics | plugins/foward_analyse/prompts.py:55-56 | no match exactly when the regex has no way to match; a found match is the one the backtracking engine picks (greedy opening whitespace, first closing delimiter, greedy closing whitespace) |
| FrontMatter.MatchedCloseMark | plugins/foward_analyse/prompts.py:55 | a match starts with `---` and its block ends at an occurrence of `\n---` |
| FrontMatter.SplitFrontMatter | plugins/foward_analyse/prompts.py:55-64 | the body of a split is a suffix of the text; text without a leading `---` or without any `\n---` has no front matter |
| FrontMatter.ParseYamlFrontMatter | plugins/foward_analyse/prompts.py:45-67 | the body is always a suffix of the content; unmatched text comes back unchanged with no metadata; a YAML failure gives no metadata and an empty body; a block that loads gives the split's body, and the loaded value as metadata exactly when it is not null |
| FrontMatter.SplitRoundTrip | plugins/foward_analyse/prompts.py:55-62 | a document built as `---\n` block `\n---\n` body splits back into exactly that block and body, provided the block is non-empty, the block has no `\n---`, and neither part starts with whitespace |
| FrontMatter.UndelimitedUnchanged | plugins/foward_analyse/prompts.py:58-64 | text with no leading `---`, or with no `\n---` anywhere, is returned whole, with no metadata |
| FrontMatter.LayoutBlock | plugins/foward_analyse/prompts.py:55 | the lazy block cannot close early when the block itself holds no `\n---` |
| Files.Read | plugins/foward_analyse/prompts.py:127-128 | a file that reads successfully exists |
| Files.WithMdSuffix | plugins/foward_analyse/__init__.py:215-216 | the result ends in `.md`; it is the name itself exactly when the name already ends in `.md`, and the name plus `.md` exactly when it does not |
| Files.WithMdSuffixIdempotent | plugins/justice/__init__.py:191-192 | completing the suffix twice is the same as completing it once |
| Prompts.ParseFile | plugins/foward_analyse/prompts.py:50-67 | an unreadable file gives `(None, "")`; a readable file gives the front-matter parse of its text |
| Prompts.Stem | plugins/foward_analyse/prompts.py:88 | the stem is a prefix of the name |
| Prompts.LastDot | plugins/foward_analyse/prompts.py:88 | the stem's cut point is the last `.` of the name, if any |
| Prompts.StemOfMdName | plugins/foward_analyse/prompts.py:87-88 | for an `x.md` file the stem plus `.md` is the name; for the bare name `.md` the stem is the name |
| Prompts.MdEntries | plugins/foward_analyse/prompts.py:83 | the `*.md` glob keeps exactly the listed names ending in `.md` |
| Prompts.MdFiles | plugins/foward_analyse/prompts.py:83 | the scanned files are sorted, are exactly the listed `.md` names, and are a permutation of the glob result |
| Prompts.StringItems | plugins/foward_analyse/prompts.py:100-101 | only the string elements of an alias list are kept |
| Prompts.DeclaredAliases | plugins/foward_analyse/prompts.py:97-102 | a string is declared exactly when the metadata is a mapping whose `alias` entry is a list holding that string |
| Prompts.FileKeys | plugins/foward_analyse/prompts.py:91-102 | each file registers its full name first and its stem second, then exactly the strings its front matter lists under `alias` |
| Prompts.Registrations | plugins/foward_analyse/prompts.py:84-102 | one registration per scanned file, in scan order |
| Prompts.PutAll | plugins/foward_analyse/prompts.py:91-102 | writing several keys to one value: the new keys are added, and the written keys map to the value while the rest keep theirs |
| Prompts.PutAllSnoc | plugins/foward_analyse/prompts.py:102 | writing one more key is a single dictionary assignment |
| Prompts.LoadPromptAliases | plugins/foward_analyse/prompts.py:70-108 | the loop builds exactly the registry fold over the sorted files; a missing directory gives the empty map |
| Prompts.RegisterFile | plugins/foward_analyse/prompts.py:85-103 | one file's writes: name, stem and each string alias all mapped to that file's path |
| Prompts.RegisterStep | plugins/foward_analyse/prompts.py:84-103 | the registry after one more file is the previous registry with that file's keys overwritten |
| Prompts.RegisteredKeys | plugins/foward_analyse/prompts.py:84-102 | a key is registered exactly when some scanned file names it |
| Prompts.LastWriterWins | plugins/foward_analyse/prompts.py:84-102 | a registered key maps to the path of the last file in scan order that names it |
| Prompts.DeclaredAliasRegistered | plugins/foward_analyse/prompts.py:96-102 | a string listed under `alias` in a scanned file's front matter is a key of the alias map |
| Prompts.NamesAndStemsRegistered | plugins/foward_analyse/prompts.py:91-92 | every scanned file's full name and stem are keys of the registry |
| Prompts.ValuesAreTemplates | plugins/foward_analyse/prompts.py:86-102 | every registry value is the path of a scanned `.md` file in the prompts directory |
| Prompts.SharedAliasGoesToLastFile | plugins/foward_analyse/prompts.py:83-102 | an alias declared by several files resolves to the last of them in sorted order |
| Prompts.PromptRegistry.constructor | plugins/foward_analyse/prompts.py:138 | the registry built at load time is the alias map of the current files |
| Prompts.PromptRegistry.Refresh | plugins/foward_analyse/__init__.py:161-162 | a refresh replaces the whole map with the alias map of the current files |
| Prompts.PromptRegistry.Resolve | plugins/foward_analyse/__init__.py:210-211 | a name resolves exactly when it is a key, and then to its registered path |
| Prompts.LoadPromptContent | plugins/foward_analyse/prompts.py:124-134 | the fallback prompt when the file cannot be read; otherwise the parsed body if it is non-empty, else the whole text: for front matter whose block loads, the body after the closing delimiter (or the whole text when that body is empty), and the whole text when there is no front matter |
| Prompts.RejectedFrontMatterKeptWhole | plugins/foward_analyse/prompts.py:65-67 | when the front matter fails to load, the empty body makes the whole raw text the template |
| Prompts.TemplateBodyLoaded | plugins/foward_analyse/prompts.py:130-131 | a well-formed template with loadable metadata yields exactly its body |
| Prompts.LoadSystemPrompt | plugins/foward_analyse/prompts.py:111-121 | the fallback when the justice template cannot be read; otherwise the parsed body when non-empty, else the whole text (so a block that fails to load leaves the whole text); the whole text when it has no front matter; the body after the closing delimiter when its block loads and that body is non-empty, else the whole text |
| CmdAna.GetAllAliases | plugins/foward_analyse/cmd_ana.py:14-20 | the set holds every trigger key and every alias listed under it, and nothing else |
| CmdAna.BuildCommandToPromptMap | plugins/foward_analyse/cmd_ana.py:23-33 | the loop builds exactly the command-map fold over the triggers |
| CmdAna.AssignTrigger | plugins/foward_analyse/cmd_ana.py:27-32 | one trigger's key and aliases are all mapped to its template path |
| CmdAna.CommandMapStep | plugins/foward_analyse/cmd_ana.py:26-32 | the map after one more trigger is the previous map with that trigger's names overwritten |
| CmdAna.CommandMapKeys | plugins/foward_analyse/cmd_ana.py:17-19 | the command map's keys are exactly the names collected for the command's aliases |
| CmdAna.CommandMapLookup | plugins/foward_analyse/cmd_ana.py:26-32 | a command maps to the template of the last trigger that names it |
| CmdAna.CommandMapSelectsOwnTemplate | plugins/foward_analyse/cmd_ana.py:26-32 | when no name is shared between triggers, each trigger's names map to its own template |
| CmdAna.CommandMapValues | plugins/foward_analyse/cmd_ana.py:27-32 | every value of the command map is the template path of some trigger |
| CmdAna.TriggersNamesDistinct | plugins/foward_analyse/prompts.py:25-42 | no command word appears under two triggers of the shipped table |
| CmdAna.TriggerNamesSelectOwnTemplate | plugins/foward_analyse/cmd_ana.py:26-32 | every name of every shipped trigger, key or alias, selects that trigger's template |
| CmdAna.ShippedCommandTable | plugins/foward_analyse/prompts.py:34-41 | `blank` and every one of its aliases go to the pov template, as configured; `pov`, `analyse` and `对线` go to their triggers' templates |
| Events.QuotedForward | plugins/foward_analyse/__init__.py:220-221 | a quoted forward is present exactly when the reply is non-empty and its first segment is a forward |
| Events.SenderLine | plugins/foward_analyse/__init__.py:320 | a line is the sender, then exactly `: `, then the text |
| Commands.FirstArgument | plugins/foward_analyse/__init__.py:204 | the leftmost `--prompt=` followed by at least one name character |
| Commands.PromptArgument | plugins/foward_analyse/__init__.py:204 | no name exactly when no `--prompt=` is followed by a name character; a name is a non-empty run of `[\w\-\.]` characters, and it is the whole maximal run after the leftmost `--prompt=` that a name character follows |
| Commands.PromptArgumentFound | plugins/justice/__init__.py:186-189 | in text with no `--prompt=` before the argument (other flags such as `--short` may precede it), the argument is exactly the longest name run after `--prompt=` |
| ForwardAnalyse.CheckUserPermission | plugins/foward_analyse/__init__.py:73-94 | admitted exactly when the event is a private or group message and its user is on the user list or, for a group message, its group is on the group list |
| ForwardAnalyse.EmptyAllowListsDenyAll | plugins/foward_analyse/__init__.py:90-93 | with both lists empty every event is refused |
| ForwardAnalyse.PrivateNotAdmittedByGroupList | plugins/foward_analyse/__init__.py:76-87 | a private message of an unlisted user is refused whatever the group list holds |
| ForwardAnalyse.MessageToSimple | plugins/foward_analyse/__init__.py:310-321 | the nested loops and recursion build exactly the transcript function |
| ForwardAnalyse.SimpleAppend | plugins/foward_analyse/__init__.py:313-321 | the transcript keeps input order: the transcript of two lists is the two transcripts in sequence |
| ForwardAnalyse.SimpleLength | plugins/foward_analyse/__init__.py:313-321 | the transcript has one entry per text or forward part of the top-level messages |
| ForwardAnalyse.PartEntriesLength | plugins/foward_analyse/__init__.py:315-320 | one entry per text or forward part of one message |
| ForwardAnalyse.PartEntriesFaithful | plugins/foward_analyse/__init__.py:314-320 | each entry is a sender line for a text part or a `[sender, 合并转发, nested]` bundle for a forward part, labelled with the enclosing message's sender; every text and forward part has its entry |
| ForwardAnalyse.TwoLevelExample | plugins/foward_analyse/__init__.py:310-321 | Alice's text and Bob's nested text give `["Alice: hi", ["Alice", "合并转发", ["Bob: yo"]]]` |
| ForwardAnalyse.ResolveOverride | plugins/foward_analyse/__init__.py:206-217 | a registered name gives its path; any other name gives `prompts/<name>` with `.md` completed |
| ForwardAnalyse.OverrideIsMdInPromptsDir | plugins/foward_analyse/__init__.py:206-217 | with the registry of the current files, every override is an `.md` file in the prompts directory |
| ForwardAnalyse.CustomPromptPath | plugins/foward_analyse/__init__.py:204-218 | there is an override exactly when the text carries a `--prompt=` name, and then it is that name resolved |
| ForwardAnalyse.SelectTemplate | plugins/foward_analyse/__init__.py:230-238 | an existing override first, else the trigger's table entry, else the ana default |
| ForwardAnalyse.SelectTemplateByCommand | plugins/foward_analyse/__init__.py:233-234 | without a usable override, any name of a trigger selects that trigger's template |
| ForwardAnalyse.SelectedTemplateIsKnown | plugins/foward_analyse/__init__.py:230-238 | the selected template is the override or one of the table's template paths |
| ForwardAnalyse.SystemPrompt | plugins/foward_analyse/__init__.py:240-244 | the loaded template, with the brevity directive appended exactly when `--short` is present |
| ForwardAnalyse.AnaDecide | plugins/foward_analyse/__init__.py:119-244 | refused exactly when the gate refuses; then help exactly when `--help` is present; without help, listing exactly when `--prompts` is present; without either flag, the usage hint exactly when there is no quoted forward; otherwise the selected template, its system prompt and the transcript of the quoted bundle |
| ForwardAnalyse.NoQuoteAsksForForward | plugins/foward_analyse/__init__.py:220-225 | an admitted request without flags and without a quoted forward always gets the usage hint |
| ForwardAnalyse.HandleAnaCommand | plugins/foward_analyse/__init__.py:119-262 | the handler's outcome is the decision taken on the registry as it was; `--prompts` refreshes the registry and nothing else changes it |
| Justice.JusticeWordsAlsoTriggerAna | plugins/justice/__init__.py:79-81 | every justice command word is also an ana command word; `对线` is an ana word only |
| Justice.CheckUserPermission | plugins/justice/__init__.py:66-75 | admitted exactly when the event is a private or group message and its user is on the allow-list |
| Justice.EmptyAllowListDeniesAll | plugins/justice/__init__.py:72-73 | an empty allow-list refuses every event |
| Justice.ExtractListMessage | plugins/justice/__init__.py:279-291 | the nested loops and recursion build exactly the flat transcript function |
| Justice.FlatLength | plugins/justice/__init__.py:279-291 | one line per text part at any depth of the tree |
| Justice.FlatAppend | plugins/justice/__init__.py:282-290 | lines keep input order: the lines of two lists are the two line lists in sequence |
| Justice.InnermostSenderLabels | plugins/justice/__init__.py:284-290 | for a message of a single part: a text is labelled with its own message's sender, and a forwarded bundle contributes its inner lines unchanged, without the outer sender |
| Justice.FlatPartsFaithful | plugins/justice/__init__.py:284-290 | for a message with any parts: every line is the sender line of one of its text parts or a line of one of its forwarded bundles, and every such line appears |
| Justice.TextsAppend | plugins/foward_analyse/__init__.py:313-320 | reading nested entries depth-first respects concatenation |
| Justice.FlatIsTextsOfSimple | plugins/justice/__init__.py:282-290 | the flat transcript is the nested transcript of `messageToSimple` read depth-first with the bundles dissolved |
| Justice.LoadSystemPrompt | plugins/justice/__init__.py:55-62 | the raw file text, front matter included, or the fallback when it cannot be read |
| Justice.CustomPromptPath | plugins/justice/__init__.py:186-193 | there is an override exactly when the text carries a `--prompt=` name, and then it is `prompts/<name>` with `.md` completed, always ending in `.md` |
| Justice.LoadCustomOrDefault | plugins/justice/__init__.py:214-222 | the override's text when it exists and reads, otherwise the default template |
| Justice.JusticeDecide | plugins/justice/__init__.py:106-211 | refused exactly when the gate refuses; then listing exactly when `--prompts` is present; without `--prompts`, the test page exactly when `--test-html` is present; without either flag, the usage hint exactly when there is no quoted forward; otherwise the custom-or-default template and the flat lines joined by newlines |
| Justice.HandleJusticeCommand | plugins/justice/__init__.py:106-224 | the handler's outcome, with the transcript built by the loop, is the decision |

## Left out

- The OpenAI completion calls, the image rendering (`md_to_pic`, `html_to_pic`), message sending and logging are external I/O. Each handler's outcome stops at what would be sent to the model or shown.
- The contents of the `--help` text, of the `--prompts` and `--test-html` replies, and of the reply asking for a quoted forward are left out: these are file reads and display strings. Only their place in the flag order is modelled.
- Exception paths other than an unreadable file are left out, for example a malformed event record or a failing renderer.
- A quoted forward whose `content` is missing is not modelled: the content is always a list.
- `json.dumps` of the ana transcript is not modelled. The transcript is kept as a tree value.
- `yaml.safe_load` is a parameter mapping the block text to a value or a failure.
- Python's `\w` is approximated: ASCII letters, digits and `_`, plus every non-ASCII character that is not whitespace.
- Ids are integers. The ana gate compares `str()` of ids and list entries, and `str` is injective on integers, so membership is unchanged.
- `strip()` of the message text is not modelled. Only substring searches and the `--prompt=` search use the text, and stripping does not change their outcome.
- The file system is a map from full path to optional text. Path normalisation, symbolic links and the justice directory listing are not modelled.
- The racy reassignment of the global alias map under concurrent requests is modelled as a whole-map replacement.
- `bot.py` plugin loading and the configuration loading are left out.
