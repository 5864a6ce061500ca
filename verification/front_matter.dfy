/**
 * The front-matter parser of the prompt documents: the regular expression
 * `^---\s*\n(.*?)\n---\s*\n(.*)$` (with `re.DOTALL`) that splits a document
 * into a YAML block and a body, and the YAML loader, which is not modelled
 * and is passed in as a function.
 *
 * The regular expression is modelled with Python's backtracking order:
 * the opening `\s*\n` is greedy, so the block starts after the LAST newline
 * of the white-space run that follows the first `---` (falling back to an
 * earlier newline of that run only when no closing delimiter follows); the
 * block `(.*?)` is lazy, so it ends at the FIRST closing delimiter; the
 * closing `\s*\n` is greedy again, so the body starts after the last newline
 * of the white-space run that follows the closing `---`.
 */
module FrontMatter {
  import opened Wrappers
  import opened Text

  /** What `yaml.safe_load` can return (mapping keys are taken to be strings). */
  datatype YamlValue =
    | YNull                                  // empty document or `null`
    | YScalar(repr: string)                  // numbers, booleans, dates
    | YStr(s: string)
    | YList(items: seq<YamlValue>)
    | YMap(entries: map<string, YamlValue>)

  /** `yaml.safe_load` either returns a value or raises. */
  datatype YamlLoad = Loaded(value: YamlValue) | YamlError

  const OpenMark: string := "---"
  const CloseMark: string := "\n---"

  /** Index `k` of `t` holds white space. */
  predicate SpaceAt(t: string, k: nat) {
    k < |t| && IsSpace(t[k])
  }

  /** Index `k` of `t` holds a newline. */
  predicate NewlineAt(t: string, k: nat) {
    k < |t| && t[k] == '\n'
  }

  predicate AllSpace(t: string, i: nat, j: nat) {
    forall k :: i <= k < j ==> SpaceAt(t, k)
  }

  /** End of the maximal run of white space starting at `i` (its meaning: `RunEndSpec`). */
  function RunEnd(t: string, i: nat): (j: nat)
    requires i <= |t|
    ensures i <= j <= |t|
    decreases |t| - i
  {
    if SpaceAt(t, i) then RunEnd(t, i + 1) else i
  }

  /** The run is all white space and stops at a character that is not. */
  lemma {:induction false} RunEndSpec(t: string, i: nat)
    requires i <= |t|
    ensures AllSpace(t, i, RunEnd(t, i)) && !SpaceAt(t, RunEnd(t, i))
    decreases |t| - i
  {
    if SpaceAt(t, i) {
      RunEndSpec(t, i + 1);
    }
  }

  /** The last newline in `t[i..j]`, if any (its meaning: `LastNewlineSpec`). */
  function LastNewline(t: string, i: nat, j: nat): (r: Option<nat>)
    requires i <= j <= |t|
    ensures r.Some? ==> i <= r.value < j
    decreases j - i
  {
    if i == j then None
    else if NewlineAt(t, j - 1) then Some(j - 1)
    else LastNewline(t, i, j - 1)
  }

  lemma {:induction false} LastNewlineSpec(t: string, i: nat, j: nat)
    requires i <= j <= |t|
    ensures LastNewline(t, i, j).Some? ==> NewlineAt(t, LastNewline(t, i, j).value)
    ensures forall e :: i <= e < j && NewlineAt(t, e) ==> LastNewline(t, i, j).Some? && e <= LastNewline(t, i, j).value
    decreases j - i
  {
    if i < j && !NewlineAt(t, j - 1) {
      LastNewlineSpec(t, i, j - 1);
    }
  }

  /**
   * The sub-pattern `\s*\n` at index `i`: the index of the newline it
   * consumes. Every newline reachable over white space is a possible end;
   * the greedy star picks the last one (its meaning: `SpacesNewlineSpec`).
   */
  function SpacesNewline(t: string, i: nat): (r: Option<nat>)
    requires i <= |t|
    ensures r.Some? ==> i <= r.value < |t|
  {
    LastNewline(t, i, RunEnd(t, i))
  }

  lemma SpacesNewlineSpec(t: string, i: nat)
    requires i <= |t|
    ensures SpacesNewline(t, i).Some? ==> NewlineAt(t, SpacesNewline(t, i).value) && AllSpace(t, i, SpacesNewline(t, i).value)
    ensures forall e :: i <= e && NewlineAt(t, e) && AllSpace(t, i, e) ==> SpacesNewline(t, i).Some? && e <= SpacesNewline(t, i).value
  {
    var j := RunEnd(t, i);
    RunEndSpec(t, i);
    LastNewlineSpec(t, i, j);
    forall e | i <= e && NewlineAt(t, e) && AllSpace(t, i, e) ensures e < j {
      assert SpaceAt(t, e);
    }
  }

  predicate StartsWithDashes(t: string) {
    OccursAt(t, OpenMark, 0)
  }

  /** Index `o` is a newline the opening `---\s*\n` can end on. */
  predicate IsOpening(t: string, o: nat) {
    StartsWithDashes(t) && 3 <= o && NewlineAt(t, o) && AllSpace(t, 3, o)
  }

  /** The characters `\n---` start at index `c`. */
  predicate DelimAt(t: string, c: nat) {
    c + 4 <= |t| && t[c] == '\n' && t[c + 1] == '-' && t[c + 2] == '-' && t[c + 3] == '-'
  }

  lemma DelimIsCloseMark(t: string, c: nat)
    requires DelimAt(t, c)
    ensures OccursAt(t, CloseMark, c)
  {
    assert t[c..c + 4] == CloseMark;
  }

  /** A closing delimiter `\n---\s*\n` can start at index `c`. */
  predicate ClosingAt(t: string, c: nat) {
    DelimAt(t, c) && SpacesNewline(t, c + 4).Some?
  }

  /** The lazy block `(.*?)` starting at `s`: the first index a closing delimiter starts at. */
  function FirstClosing(t: string, s: nat): (r: Option<nat>)
    requires s <= |t|
    ensures r.Some? ==> s <= r.value && ClosingAt(t, r.value)
    decreases |t| - s
  {
    if ClosingAt(t, s) then Some(s)
    else if s == |t| then None
    else FirstClosing(t, s + 1)
  }

  /** No closing delimiter at or after `s` comes before the one `FirstClosing` finds. */
  lemma {:induction false} FirstClosingFirst(t: string, s: nat, c: nat)
    requires s <= |t|
    ensures s <= c && ClosingAt(t, c) ==> FirstClosing(t, s).Some? && FirstClosing(t, s).value <= c
    decreases |t| - s
  {
    if s <= c && ClosingAt(t, c) && !ClosingAt(t, s) {
      FirstClosingFirst(t, s + 1, c);
    }
  }

  /** The last index in `[lo, k)` where `p` holds, if any (its meaning: `LastWhereLatest`). */
  function LastWhere(p: nat -> bool, lo: nat, k: nat): (r: Option<nat>)
    requires lo <= k
    ensures r.Some? ==> lo <= r.value < k && p(r.value)
    decreases k - lo
  {
    if k == lo then None
    else if p(k - 1) then Some(k - 1)
    else LastWhere(p, lo, k - 1)
  }

  /** No index below `k` where `p` holds lies above the one `LastWhere` finds. */
  lemma {:induction false} LastWhereLatest(p: nat -> bool, lo: nat, k: nat, i: nat)
    requires lo <= k
    ensures lo <= i < k && p(i) ==> LastWhere(p, lo, k).Some? && i <= LastWhere(p, lo, k).value
    decreases k - lo
  {
    if lo < k && !p(k - 1) {
      LastWhereLatest(p, lo, k - 1, i);
    }
  }

  /** A newline some closing delimiter follows: where the opening `\s*\n` can stop. */
  function OpensBlock(t: string): nat -> bool {
    (o: nat) => NewlineAt(t, o) && FirstClosing(t, o + 1).Some?
  }

  /** Backtracking over the opening newlines below `k`, last one first (its meaning: `OpeningSearchLatest`). */
  function OpeningSearch(t: string, k: nat): (r: Option<nat>)
    requires 3 <= k <= |t|
    ensures r.Some? ==> 3 <= r.value < k && NewlineAt(t, r.value) && FirstClosing(t, r.value + 1).Some?
  {
    LastWhere(OpensBlock(t), 3, k)
  }

  /** The search finds the last newline below `k` that some closing delimiter follows. */
  lemma OpeningSearchLatest(t: string, k: nat, o: nat)
    requires 3 <= k <= |t|
    ensures 3 <= o < k && NewlineAt(t, o) && FirstClosing(t, o + 1).Some? ==>
              OpeningSearch(t, k).Some? && o <= OpeningSearch(t, k).value
  {
    LastWhereLatest(OpensBlock(t), 3, k, o);
  }

  /** Every opening newline lies inside the white-space run after the first `---`. */
  lemma OpeningInRun(t: string, o: nat)
    requires IsOpening(t, o)
    ensures o < RunEnd(t, 3)
  {
    RunEndSpec(t, 3);
    assert SpaceAt(t, o);
  }

  /** A newline the search returns inside that run is an opening. */
  lemma SearchedOpening(t: string, o: nat)
    requires StartsWithDashes(t) && 3 <= o < RunEnd(t, 3) && NewlineAt(t, o)
    ensures IsOpening(t, o)
  {
    RunEndSpec(t, 3);
  }

  /** Where the pattern matched: the opening newline, the closing `\n---` and the start of the body. */
  datatype Match = Match(opening: nat, closing: nat, bodyStart: nat)

  /** No opening newline is followed by a closing delimiter: the pattern cannot match. */
  ghost predicate Unmatchable(t: string) {
    forall o: nat, c: nat :: IsOpening(t, o) && o < c ==> !ClosingAt(t, c)
  }

  /**
   * The match the engine reports: an opening, the FIRST closing delimiter
   * after it (the lazy block), no later opening followed by any closing
   * delimiter (the greedy opening backtracks only when it must), and a body
   * starting after the last newline of the closing white-space run.
   */
  ghost predicate EngineMatch(t: string, m: Match) {
    && IsOpening(t, m.opening)
    && m.opening < m.closing
    && ClosingAt(t, m.closing)
    && (forall c: nat :: m.opening < c < m.closing ==> !ClosingAt(t, c))
    && (forall o: nat, c: nat :: m.opening < o < c && IsOpening(t, o) ==> !ClosingAt(t, c))
    && m.bodyStart == SpacesNewline(t, m.closing + 4).value + 1
  }

  /** The match found once the opening newline `o` is fixed. */
  function MatchAfter(t: string, o: nat): (m: Match)
    requires o < |t| && FirstClosing(t, o + 1).Some?
    ensures m.opening < m.closing && m.closing + 4 < m.bodyStart <= |t|
  {
    var c := FirstClosing(t, o + 1).value;
    Match(o, c, SpacesNewline(t, c + 4).value + 1)
  }

  /** `re.match` of the front-matter pattern (its meaning: `MatchSemantics`). */
  function MatchFrontMatter(t: string): (r: Option<Match>)
    ensures r.Some? ==> r.value.opening < r.value.closing && r.value.closing + 4 < r.value.bodyStart <= |t|
  {
    if !StartsWithDashes(t) then None
    else
      match OpeningSearch(t, RunEnd(t, 3))
      case None => None
      case Some(o) => Some(MatchAfter(t, o))
  }

  /**
   * What the engine reports: no match exactly when no opening is followed
   * by a closing delimiter; otherwise the match `EngineMatch` describes.
   */
  lemma MatchSemantics(t: string)
    ensures MatchFrontMatter(t).None? <==> Unmatchable(t)
    ensures MatchFrontMatter(t).Some? ==> EngineMatch(t, MatchFrontMatter(t).value)
  {
    if StartsWithDashes(t) {
      var s := OpeningSearch(t, RunEnd(t, 3));
      if s.None? {
        NoOpeningUnmatchable(t);
      } else {
        SearchedOpening(t, s.value);
        GreedyOpening(t, s.value);
        MatchAfterIsEngineMatch(t, s.value);
      }
    }
  }

  lemma NoOpeningUnmatchable(t: string)
    requires StartsWithDashes(t) && OpeningSearch(t, RunEnd(t, 3)).None?
    ensures Unmatchable(t)
  {
    var j := RunEnd(t, 3);
    forall o: nat, c: nat | IsOpening(t, o) && o < c ensures !ClosingAt(t, c) {
      OpeningInRun(t, o);
      FirstClosingFirst(t, o + 1, c);
      OpeningSearchLatest(t, j, o);
    }
  }

  /** The lazy block: no closing delimiter between the opening and the one found. */
  lemma LazyBlock(t: string, o: nat)
    requires o < |t| && FirstClosing(t, o + 1).Some?
    ensures forall c: nat :: o < c < FirstClosing(t, o + 1).value ==> !ClosingAt(t, c)
  {
    forall c: nat | o < c < FirstClosing(t, o + 1).value ensures !ClosingAt(t, c) {
      FirstClosingFirst(t, o + 1, c);
    }
  }

  /** A newline after the one the search returned, below `k`, is followed by no closing delimiter. */
  lemma LaterNewlineUnclosed(t: string, k: nat, o: nat, o': nat, c: nat)
    requires 3 <= k <= |t| && OpeningSearch(t, k) == Some(o)
    requires o < o' < k && NewlineAt(t, o') && o' < c
    ensures !ClosingAt(t, c)
  {
    OpeningSearchLatest(t, k, o');
    assert FirstClosing(t, o' + 1).None?;
    FirstClosingFirst(t, o' + 1, c);
  }

  /** The greedy opening: no later opening newline is followed by a closing delimiter. */
  lemma GreedyOpening(t: string, o: nat)
    requires StartsWithDashes(t) && OpeningSearch(t, RunEnd(t, 3)) == Some(o)
    ensures forall o': nat, c: nat :: o < o' < c && IsOpening(t, o') ==> !ClosingAt(t, c)
  {
    var j := RunEnd(t, 3);
    forall o': nat, c: nat | o < o' < c && IsOpening(t, o') ensures !ClosingAt(t, c) {
      OpeningInRun(t, o');
      LaterNewlineUnclosed(t, j, o, o', c);
    }
  }

  /** An opening followed by a closing delimiter, with no later such opening, gives the engine's match. */
  lemma MatchAfterIsEngineMatch(t: string, o: nat)
    requires IsOpening(t, o) && FirstClosing(t, o + 1).Some?
    requires forall o': nat, c: nat :: o < o' < c && IsOpening(t, o') ==> !ClosingAt(t, c)
    ensures EngineMatch(t, MatchAfter(t, o)) && !Unmatchable(t)
  {
    LazyBlock(t, o);
    var m := MatchAfter(t, o);
    assert IsOpening(t, o) && o < m.closing && ClosingAt(t, m.closing);
  }

  lemma MatchedCloseMark(t: string)
    requires MatchFrontMatter(t).Some?
    ensures StartsWithDashes(t) && OccursAt(t, CloseMark, MatchFrontMatter(t).value.closing)
  {
    var c := MatchFrontMatter(t).value.closing;
    assert ClosingAt(t, c);
    DelimIsCloseMark(t, c);
  }

  /** The outcome of the regular expression: no match, or the two groups. */
  datatype Split = NoFrontMatter | FrontMatter(block: string, body: string)

  function SplitFrontMatter(t: string): (r: Split)
    ensures r.FrontMatter? ==> StartsWithDashes(t) && IsSuffix(r.body, t)
    ensures !StartsWithDashes(t) || !Contains(t, CloseMark) ==> r == NoFrontMatter
  {
    match MatchFrontMatter(t)
    case None => NoFrontMatter
    case Some(m) =>
      MatchedCloseMark(t);
      assert Contains(t, CloseMark);
      var body := t[m.bodyStart..];
      assert t[|t| - |body|..] == body;
      FrontMatter(t[m.opening + 1..m.closing], body)
  }

  /**
   * `parse_yaml_front_matter` once the file is read: text the pattern does
   * not match comes back unchanged without metadata; a block the loader
   * rejects discards the body too; otherwise the loaded value (None for an
   * empty document) and the body.
   */
  function ParseYamlFrontMatter(load: string -> YamlLoad, content: string): (r: (Option<YamlValue>, string))
    ensures IsSuffix(r.1, content)
    ensures SplitFrontMatter(content).NoFrontMatter? ==> r == (None, content)
    ensures SplitFrontMatter(content).FrontMatter? && load(SplitFrontMatter(content).block).YamlError? ==> r == (None, "")
    ensures r.0.Some? ==>
              && SplitFrontMatter(content).FrontMatter?
              && load(SplitFrontMatter(content).block) == Loaded(r.0.value)
              && !r.0.value.YNull?
              && r.1 == SplitFrontMatter(content).body
    ensures SplitFrontMatter(content).FrontMatter? && load(SplitFrontMatter(content).block).Loaded? ==>
              && r.1 == SplitFrontMatter(content).body
              && (r.0.Some? <==> !load(SplitFrontMatter(content).block).value.YNull?)
              && (r.0.Some? ==> r.0.value == load(SplitFrontMatter(content).block).value)
  {
    match SplitFrontMatter(content)
    case NoFrontMatter => (None, content)
    case FrontMatter(block, body) =>
      match load(block)
      case YamlError => (None, "")
      case Loaded(v) => (if v.YNull? then None else Some(v), body)
  }

  /** A document written as `---`, newline, block, newline, `---`, newline, body. */
  function Assemble(block: string, body: string): string {
    OpenMark + "\n" + block + CloseMark + "\n" + body
  }

  /** The positions of an assembled document, stated without its concatenation. */
  ghost predicate Layout(t: string, y: string, b: string) {
    && |t| == 9 + |y| + |b|
    && StartsWithDashes(t)
    && t[3] == '\n'
    && t[4 + |y|] == '\n' && t[5 + |y|] == '-' && t[6 + |y|] == '-' && t[7 + |y|] == '-'
    && t[8 + |y|] == '\n'
    && t[4..4 + |y|] == y
    && t[9 + |y|..] == b
  }

  lemma AssembleLayout(y: string, b: string)
    ensures Layout(Assemble(y, b), y, b)
  {
    var t := Assemble(y, b);
    assert t[..3] == OpenMark;
  }

  /** A block starting with a visible character ends the opening run at the first newline. */
  lemma LayoutOpening(t: string, y: string, b: string)
    requires Layout(t, y, b) && y != [] && !IsSpace(y[0])
    ensures RunEnd(t, 3) == 4
  {
    assert t[4] == t[4..4 + |y|][0];
    assert SpaceAt(t, 3) && !SpaceAt(t, 4);
  }

  /** The written delimiter closes, and its newline is the last one of its run. */
  lemma LayoutClosing(t: string, y: string, b: string)
    requires Layout(t, y, b) && (b == [] || !IsSpace(b[0]))
    ensures ClosingAt(t, 4 + |y|)
    ensures SpacesNewline(t, 8 + |y|) == Some(8 + |y|)
  {
    var n := |y|;
    if b != [] {
      assert t[9 + n] == t[9 + n..][0];
    }
    assert SpaceAt(t, 8 + n) && !SpaceAt(t, 9 + n);
    assert RunEnd(t, 8 + n) == 9 + n;
    assert NewlineAt(t, 8 + n);
  }

  /** A `\n---` inside the block of a layout is one of the block's own. */
  lemma DelimInBlock(t: string, y: string, b: string, c: nat)
    requires Layout(t, y, b) && 4 <= c
    ensures c + 4 <= 4 + |y| && DelimAt(t, c) ==> OccursAt(y, CloseMark, c - 4)
  {
    var n := |y|;
    if c + 4 <= 4 + n && DelimAt(t, c) {
      forall k | 0 <= k < 4 ensures y[c - 4..c][k] == CloseMark[k] {
        assert y[c - 4 + k] == t[4..4 + n][c - 4 + k];
      }
    }
  }

  /** No closing delimiter starts inside a block that holds no `\n---`. */
  lemma LayoutBlock(t: string, y: string, b: string)
    requires Layout(t, y, b) && !Contains(y, CloseMark)
    ensures forall c: nat :: 4 <= c < 4 + |y| ==> !ClosingAt(t, c)
  {
    forall c: nat | 4 <= c < 4 + |y| ensures !ClosingAt(t, c) {
      DelimInBlock(t, y, b, c);
      assert t[4 + |y|] == '\n';
    }
  }

  /** A document with this layout splits into exactly `y` and `b`. */
  lemma SplitOfLayout(t: string, y: string, b: string)
    requires Layout(t, y, b)
    requires y != [] && !IsSpace(y[0]) && !Contains(y, CloseMark)
    requires b == [] || !IsSpace(b[0])
    ensures SplitFrontMatter(t) == FrontMatter(y, b)
  {
    var n := |y|;
    LayoutOpening(t, y, b);
    LayoutClosing(t, y, b);
    LayoutBlock(t, y, b);
    FirstClosingFirst(t, 4, 4 + n);
    assert FirstClosing(t, 4) == Some(4 + n);
    assert OpeningSearch(t, 4) == Some(3);
    assert MatchFrontMatter(t) == Some(Match(3, 4 + n, 9 + n));
  }

  /**
   * Round trip: an assembled document splits back into its block and body,
   * provided the block starts with a visible character and has no `\n---`
   * of its own, and the body does not start with white space (which the
   * closing `\s*` would absorb).
   */
  lemma SplitRoundTrip(y: string, b: string)
    requires y != [] && !IsSpace(y[0]) && !Contains(y, CloseMark)
    requires b == [] || !IsSpace(b[0])
    ensures SplitFrontMatter(Assemble(y, b)) == FrontMatter(y, b)
  {
    AssembleLayout(y, b);
    SplitOfLayout(Assemble(y, b), y, b);
  }

  /** Text with no leading `---`, or with no `\n---` anywhere, comes back unchanged and without metadata. */
  lemma UndelimitedUnchanged(load: string -> YamlLoad, t: string)
    requires !StartsWithDashes(t) || !Contains(t, CloseMark)
    ensures ParseYamlFrontMatter(load, t) == (None, t)
  {
  }
}
