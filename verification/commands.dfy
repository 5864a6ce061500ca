/**
 * The command-line flags both handlers look for in the message text, and
 * the `--prompt=` argument, found with `re.search(r"--prompt=([\w\-\.]+)")`.
 */
module Commands {
  import opened Wrappers
  import opened Text

  const HelpFlag: string := "--help"
  const PromptsFlag: string := "--prompts"
  const ShortFlag: string := "--short"
  const TestHtmlFlag: string := "--test-html"
  const PromptPrefix: string := "--prompt="

  /** The character class `[\w\-\.]` of a template name. */
  predicate IsNameChar(c: char) {
    IsWordChar(c) || c == '-' || c == '.'
  }

  /** The end of the longest run of name characters starting at `i`. */
  function NameRunEnd(t: string, i: nat): (j: nat)
    requires i <= |t|
    ensures i <= j <= |t|
    ensures forall k :: i <= k < j ==> IsNameChar(t[k])
    ensures j < |t| ==> !IsNameChar(t[j])
    decreases |t| - i
  {
    if i < |t| && IsNameChar(t[i]) then NameRunEnd(t, i + 1) else i
  }

  /** The pattern can match at `i`: the prefix, then at least one name character. */
  predicate ArgumentAt(t: string, i: nat) {
    OccursAt(t, PromptPrefix, i) && i + |PromptPrefix| < |t| && IsNameChar(t[i + |PromptPrefix|])
  }

  /** The leftmost position at or after `from` where the pattern can match. */
  function FirstArgument(t: string, from: nat): (r: Option<nat>)
    ensures r.Some? ==> from <= r.value && ArgumentAt(t, r.value)
    ensures r.Some? ==> forall i: nat :: from <= i < r.value ==> !ArgumentAt(t, i)
    ensures r.None? ==> forall i: nat :: from <= i ==> !ArgumentAt(t, i)
    decreases |t| - from
  {
    if from >= |t| then None
    else if ArgumentAt(t, from) then Some(from)
    else FirstArgument(t, from + 1)
  }

  /**
   * Group 1 of the search: the greedy run of name characters after the
   * leftmost `--prompt=` that is followed by one; None when there is none.
   */
  function PromptArgument(t: string): (r: Option<string>)
    ensures r.None? <==> forall i: nat :: !ArgumentAt(t, i)
    ensures r.Some? ==> r.value != [] && forall k :: 0 <= k < |r.value| ==> IsNameChar(r.value[k])
    ensures r.Some? ==> exists i: nat :: ArgumentAt(t, i) && IsSuffix(r.value, t[..NameRunEnd(t, i + |PromptPrefix|)])
    ensures r.Some? ==>
              && FirstArgument(t, 0).Some?
              && r.value == t[FirstArgument(t, 0).value + |PromptPrefix|..NameRunEnd(t, FirstArgument(t, 0).value + |PromptPrefix|)]
  {
    match FirstArgument(t, 0)
    case None => None
    case Some(i) =>
      var s := i + |PromptPrefix|;
      var e := NameRunEnd(t, s);
      assert t[s..e] == t[..e][s..];
      Some(t[s..e])
  }

  /**
   * A message whose text before the first `--prompt=` holds no `--prompt=`
   * of its own (flags such as `--short` may come first), with a character
   * outside the name class (or the end) after the name, yields `name`.
   */
  lemma PromptArgumentFound(p: string, name: string, q: string)
    requires !Contains(p, PromptPrefix)
    requires name != [] && forall k :: 0 <= k < |name| ==> IsNameChar(name[k])
    requires q == [] || !IsNameChar(q[0])
    ensures PromptArgument(p + PromptPrefix + name + q) == Some(name)
  {
    var t := p + PromptPrefix + name + q;
    var s := |p| + |PromptPrefix|;
    var e := s + |name|;
    assert t[|p|..s] == PromptPrefix;
    assert t[s..e] == name;
    forall k: nat | k + |PromptPrefix| <= |p| ensures !OccursAt(t, PromptPrefix, k) {
      assert !OccursAt(p, PromptPrefix, k);
      assert t[k..k + |PromptPrefix|] == p[k..k + |PromptPrefix|];
    }
    forall k | s <= k < e ensures IsNameChar(t[k]) {
      assert t[k] == name[k - s];
    }
    if q != [] {
      assert t[e] == q[0];
    }
    ArgumentFoundAt(t, |p|, e);
  }

  /**
   * The same, stated on positions: no `--prompt=` wholly before `n`, the
   * prefix at `n`, and a maximal non-empty run of name characters from
   * after the prefix to `e`.
   */
  lemma ArgumentFoundAt(t: string, n: nat, e: nat)
    requires n + |PromptPrefix| < e <= |t|
    requires forall k: nat :: k + |PromptPrefix| <= n ==> !OccursAt(t, PromptPrefix, k)
    requires t[n..n + |PromptPrefix|] == PromptPrefix
    requires forall k :: n + |PromptPrefix| <= k < e ==> IsNameChar(t[k])
    requires e == |t| || !IsNameChar(t[e])
    ensures PromptArgument(t) == Some(t[n + |PromptPrefix|..e])
  {
    var s := n + |PromptPrefix|;
    assert ArgumentAt(t, n);
    var v := FirstArgument(t, 0).value;
    assert t[v + 8] == t[v..v + |PromptPrefix|][8] == '=';
    forall k | n <= k < n + 8 ensures t[k] != '=' {
      assert t[k] == t[n..n + |PromptPrefix|][k - n];
    }
    assert v == n;
    var j := NameRunEnd(t, s);
    assert j < |t| ==> !IsNameChar(t[j]);
    assert j == e;
  }
}
