/**
  The text edits of the Rollup plugin (plugin/src/index.ts): the source text
  with hook lines inserted at character offsets, as its MagicString buffer
  produces it with `prependLeft(offset, '\n\tuseSignals();\n')`. All inserted
  texts are equal, so only how many land at each offset matters: the
  offsets are a multiset.
*/
module Splice {
  /** The text inserted just after the opening brace of a component's body. */
  const HookLine: string := "\n\tuseSignals();\n"

  /** `k` hook lines. */
  function Hooks(k: nat): (r: string)
    ensures k > 0 ==> |HookLine| <= |r| && r[..|HookLine|] == HookLine
  {
    if k == 0 then "" else HookLine + Hooks(k - 1)
  }

  /** `k` hook lines are `k` times as long as one. */
  lemma {:induction false} HooksLength(k: nat)
    ensures |Hooks(k)| == k * |HookLine|
  {
    if k > 0 {
      HooksLength(k - 1);
    }
  }

  /** `code`, whose first character sits at offset `at` of the file, with
      offs[p] hook lines inserted at each offset p after its first character. */
  function Weave(code: string, offs: multiset<nat>, at: nat): string {
    if code == [] then [] else [code[0]] + Hooks(offs[at + 1]) + Weave(code[1..], offs, at + 1)
  }

  /** The whole text with the insertions: offset 0 is before the first
      character, offset |code| after the last. */
  function Render(code: string, offs: multiset<nat>): string {
    Hooks(offs[0]) + Weave(code, offs, 0)
  }

  /** The number of insertions in the gaps after the `n` characters whose
      first sits at offset `at`. */
  function Between(offs: multiset<nat>, at: nat, n: nat): nat
    decreases n
  {
    if n == 0 then 0 else offs[at + 1] + Between(offs, at + 1, n - 1)
  }

  lemma {:induction false} WeaveLength(code: string, offs: multiset<nat>, at: nat)
    ensures |Weave(code, offs, at)| == |code| + Between(offs, at, |code|) * |HookLine|
    decreases |code|
  {
    if code != [] {
      WeaveLength(code[1..], offs, at + 1);
      HooksLength(offs[at + 1]);
    }
  }

  lemma {:induction false} BetweenRemove(offs: multiset<nat>, o: nat, at: nat, n: nat)
    requires o in offs
    ensures Between(offs, at, n) == Between(offs - multiset{o}, at, n) + (if at < o <= at + n then 1 else 0)
    decreases n
  {
    if n > 0 {
      BetweenRemove(offs, o, at + 1, n - 1);
    }
  }

  /** When every offset lies within the code, each insertion falls in
      exactly one gap. */
  lemma {:induction false} InsertionsCounted(offs: multiset<nat>, n: nat)
    requires forall o | o in offs :: o <= n
    ensures offs[0] + Between(offs, 0, n) == |offs|
    decreases |offs|
  {
    if offs != multiset{} {
      var o :| o in offs;
      var rest := offs - multiset{o};
      assert forall x | x in rest :: x in offs;
      InsertionsCounted(rest, n);
      BetweenRemove(offs, o, 0, n);
    } else {
      BetweenNone(0, n);
    }
  }

  lemma {:induction false} BetweenNone(at: nat, n: nat)
    ensures Between(multiset{}, at, n) == 0
    decreases n
  {
    if n > 0 {
      BetweenNone(at + 1, n - 1);
    }
  }

  /** The edited text is the code plus one hook line per insertion. */
  lemma RenderLength(code: string, offs: multiset<nat>)
    requires forall o | o in offs :: o <= |code|
    ensures |Render(code, offs)| == |code| + |offs| * |HookLine|
  {
    HooksLength(offs[0]);
    WeaveLength(code, offs, 0);
    InsertionsCounted(offs, |code|);
  }

  /** Recover the original text from an edited one, skipping the hook lines
      that were inserted at each offset. */
  function Unweave(out: string, offs: multiset<nat>, at: nat): string
    decreases |out|
  {
    var h := |Hooks(offs[at + 1])|;
    if out == [] then []
    else if |out| < 1 + h then [out[0]]
    else [out[0]] + Unweave(out[1 + h..], offs, at + 1)
  }

  function Unrender(out: string, offs: multiset<nat>): string {
    var h := |Hooks(offs[0])|;
    if |out| < h then [] else Unweave(out[h..], offs, 0)
  }

  /** Every original character survives, in order: removing the inserted
      hook lines gives back the source text. */
  lemma {:induction false} UnrenderRender(code: string, offs: multiset<nat>)
    ensures Unrender(Render(code, offs), offs) == code
  {
    var out := Render(code, offs);
    assert out[|Hooks(offs[0])|..] == Weave(code, offs, 0);
    UnweaveWeave(code, offs, 0);
  }

  lemma {:induction false} UnweaveWeave(code: string, offs: multiset<nat>, at: nat)
    ensures Unweave(Weave(code, offs, at), offs, at) == code
    decreases |code|
  {
    if code != [] {
      var w := Weave(code, offs, at);
      var h := |Hooks(offs[at + 1])|;
      assert w[1 + h..] == Weave(code[1..], offs, at + 1);
      UnweaveWeave(code[1..], offs, at + 1);
      assert [code[0]] + code[1..] == code;
    }
  }

  lemma {:induction false} WeaveAppend(a: string, b: string, offs: multiset<nat>, at: nat)
    ensures Weave(a + b, offs, at) == Weave(a, offs, at) + Weave(b, offs, at + |a|)
    decreases |a|
  {
    if a == [] {
      assert a + b == b;
    } else {
      assert (a + b)[0] == a[0] && (a + b)[1..] == a[1..] + b;
      WeaveAppend(a[1..], b, offs, at + 1);
    }
  }

  /** In `out`, the character `ch` at index `p` is followed directly by a
      hook line. */
  predicate HookedAfter(out: string, p: nat, ch: char) {
    p + |HookLine| < |out| && out[p] == ch && out[p + 1..p + 1 + |HookLine|] == HookLine
  }

  /** Where insertions after the character at index `i` land: that
      character is followed directly by a hook line. For a component it is
      the opening brace of its body, and the offset is `i + 1`. */
  lemma {:induction false} HookFollowsOffset(code: string, offs: multiset<nat>, i: nat)
    requires i < |code| && offs[i + 1] > 0
    ensures HookedAfter(Render(code, offs), |Hooks(offs[0])| + |Weave(code[..i], offs, 0)|, code[i])
  {
    var h, pre, w := Hooks(offs[0]), Weave(code[..i], offs, 0), Weave(code[i..], offs, i);
    var k := Hooks(offs[i + 1]);
    RenderSplit(code, offs, i);
    WeaveStartsHooked(code[i..], offs, i);
    HookedAfterParts(Render(code, offs), h, pre, w, k, code[i]);
  }

  /** `h + pre + w`, where `w` is `ch` followed by hook lines, has `ch`
      followed by a hook line just after `h + pre`. */
  lemma HookedAfterParts(out: string, h: string, pre: string, w: string, k: string, ch: char)
    requires out == h + (pre + w) && |k| < |w| && w[0] == ch && w[1..1 + |k|] == k
    requires |HookLine| <= |k| && k[..|HookLine|] == HookLine
    ensures HookedAfter(out, |h| + |pre|, ch)
  {
    var p := |h| + |pre|;
    SliceAfter(h, pre + w, |pre| + 1, |pre| + 1 + |k|);
    SliceAfter(pre, w, 1, 1 + |k|);
    SlicePrefix(out, p + 1, k, HookLine);
  }

  lemma RenderSplit(code: string, offs: multiset<nat>, i: nat)
    requires i <= |code|
    ensures Render(code, offs) == Hooks(offs[0]) + (Weave(code[..i], offs, 0) + Weave(code[i..], offs, i))
  {
    WeaveSplit(code, offs, i);
  }

  lemma WeaveSplit(code: string, offs: multiset<nat>, i: nat)
    requires i <= |code|
    ensures Weave(code, offs, 0) == Weave(code[..i], offs, 0) + Weave(code[i..], offs, i)
  {
    var pre, rest := code[..i], code[i..];
    assert pre + rest == code;
    WeaveAppend(pre, rest, offs, 0);
  }

  /** A woven text starts with its first character and then the hook lines
      inserted just after it. */
  lemma WeaveStartsHooked(s: string, offs: multiset<nat>, at: nat)
    requires |s| > 0
    ensures var w, h := Weave(s, offs, at), Hooks(offs[at + 1]);
            |h| < |w| && w[0] == s[0] && w[1..1 + |h|] == h
  {
    var h := Hooks(offs[at + 1]);
    var w := Weave(s, offs, at);
    assert w == [s[0]] + h + Weave(s[1..], offs, at + 1);
  }

  lemma SlicePrefix(s: string, a: nat, h: string, line: string)
    requires a + |h| <= |s| && s[a..a + |h|] == h && |line| <= |h| && h[..|line|] == line
    ensures s[a..a + |line|] == line
  {
    assert s[a..a + |line|] == s[a..a + |h|][..|line|];
  }

  lemma SliceAfter(a: string, b: string, i: nat, j: nat)
    requires i <= j <= |b|
    ensures (a + b)[|a| + i..|a| + j] == b[i..j]
  {
  }
}
