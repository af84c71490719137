/** Parenthesis nesting of instruction text. The target's folded
    instructions are parenthesised groups; these definitions say when a line
    is exactly one such group. */
module Nesting {
  import opened Text

  function Step(c: char): int {
    if c == '(' then 1 else if c == ')' then -1 else 0
  }

  /** Opening minus closing parentheses in `s`. */
  function Depth(s: string): int {
    if |s| == 0 then 0 else Depth(s[..|s| - 1]) + Step(s[|s| - 1])
  }

  predicate NoParens(s: string) {
    forall k :: 0 <= k < |s| ==> s[k] != '(' && s[k] != ')'
  }

  /** Depth of the first `k` characters of `s`. */
  function PrefixDepth(s: string, k: nat): int
    requires k <= |s|
  {
    Depth(s[..k])
  }

  /** Every parenthesis is closed, and none is closed before it is opened. */
  predicate Balanced(s: string) {
    Depth(s) == 0 && forall k :: 0 <= k <= |s| ==> PrefixDepth(s, k) >= 0
  }

  /** One parenthesised group: it opens with its first character, and the
      parenthesis opened there is closed by its last character and no
      earlier one. */
  predicate Group(s: string) {
    |s| >= 2 && s[0] == '(' && Depth(s) == 0
    && forall k :: 1 <= k < |s| ==> PrefixDepth(s, k) >= 1
  }

  /** The start of a group still open after every character. */
  predicate Open(s: string) {
    |s| >= 1 && s[0] == '(' && forall k :: 1 <= k <= |s| ==> PrefixDepth(s, k) >= 1
  }

  /** `(` followed by text without parentheses. */
  predicate Opening(s: string) {
    |s| >= 1 && s[0] == '(' && forall k :: 1 <= k < |s| ==> s[k] != '(' && s[k] != ')'
  }

  lemma {:induction false} DepthConcat(a: string, b: string)
    ensures Depth(a + b) == Depth(a) + Depth(b)
  {
    if |b| > 0 {
      assert (a + b)[..|a + b| - 1] == a + b[..|b| - 1];
      DepthConcat(a, b[..|b| - 1]);
    } else {
      assert a + b == a;
    }
  }

  lemma PrefixConcat(a: string, b: string, k: nat)
    requires |a| < k <= |a + b|
    ensures PrefixDepth(a + b, k) == Depth(a) + PrefixDepth(b, k - |a|)
  {
    assert (a + b)[..k] == a + b[..k - |a|];
    DepthConcat(a, b[..k - |a|]);
  }

  lemma {:induction false} NoParensDepth(s: string)
    requires NoParens(s)
    ensures Depth(s) == 0
  {
    if |s| > 0 {
      NoParensDepth(s[..|s| - 1]);
    }
  }

  lemma NoParensBalanced(s: string)
    requires NoParens(s)
    ensures Balanced(s)
  {
    NoParensDepth(s);
    forall k | 0 <= k <= |s| ensures PrefixDepth(s, k) >= 0 {
      NoParensDepth(s[..k]);
    }
  }

  lemma ConcatBalanced(a: string, b: string)
    requires Balanced(a) && Balanced(b)
    ensures Balanced(a + b)
  {
    DepthConcat(a, b);
    forall k | 0 <= k <= |a + b| ensures PrefixDepth(a + b, k) >= 0 {
      if k <= |a| {
        assert (a + b)[..k] == a[..k];
        assert PrefixDepth(a, k) >= 0;
      } else {
        assert PrefixDepth(b, k - |a|) >= 0;
        PrefixConcat(a, b, k);
      }
    }
  }

  lemma OpeningConcat(a: string, b: string)
    requires Opening(a) && NoParens(b)
    ensures Opening(a + b)
  {
  }

  /** An opening is an open group start holding one unclosed parenthesis. */
  lemma OpeningOpen(s: string)
    requires Opening(s)
    ensures Open(s) && Depth(s) == 1
  {
    var rest := s[1..];
    assert NoParens(rest);
    assert s == s[..1] + rest;
    assert s[..1] == ['('];
    DepthConcat(s[..1], rest);
    NoParensDepth(rest);
    forall k | 1 <= k <= |s| ensures PrefixDepth(s, k) >= 1 {
      assert s[..k] == s[..1] + rest[..k - 1];
      DepthConcat(s[..1], rest[..k - 1]);
      NoParensDepth(rest[..k - 1]);
    }
  }

  /** Balanced text inside an open group keeps it open at the same depth. */
  lemma OpenExtend(a: string, x: string)
    requires Open(a) && Balanced(x)
    ensures Open(a + x) && Depth(a + x) == Depth(a)
  {
    DepthConcat(a, x);
    forall k | 1 <= k <= |a + x| ensures PrefixDepth(a + x, k) >= 1 {
      if k <= |a| {
        assert (a + x)[..k] == a[..k];
        assert PrefixDepth(a, k) >= 1;
      } else {
        assert PrefixDepth(x, k - |a|) >= 0;
        assert a[..|a|] == a;
        assert PrefixDepth(a, |a|) >= 1;
        PrefixConcat(a, x, k);
      }
    }
  }

  /** Closing the one parenthesis left open completes a group. */
  lemma CloseGroup(a: string)
    requires Open(a) && Depth(a) == 1
    ensures Group(a + ")")
  {
    DepthConcat(a, ")");
    forall k | 1 <= k < |a + ")"| ensures PrefixDepth(a + ")", k) >= 1 {
      assert (a + ")")[..k] == a[..k];
      assert PrefixDepth(a, k) >= 1;
    }
  }

  lemma ClosePlain(s: string)
    requires Opening(s)
    ensures Group(s + ")")
  {
    OpeningOpen(s);
    CloseGroup(s);
  }

  /** A group is balanced. */
  lemma GroupBalanced(s: string)
    requires Group(s)
    ensures Balanced(s)
  {
    forall k | 0 <= k <= |s| ensures PrefixDepth(s, k) >= 0 {
      if k == 0 {
        assert s[..0] == [];
      } else if k == |s| {
        assert s[..k] == s;
      }
    }
  }

  /** Balanced pieces joined by a parenthesis-free separator stay balanced. */
  lemma {:induction false} JoinBalanced(parts: seq<string>, sep: string)
    requires NoParens(sep)
    requires forall k :: 0 <= k < |parts| ==> Balanced(parts[k])
    ensures Balanced(Join(parts, sep))
  {
    if |parts| == 0 {
      NoParensBalanced("");
    } else if |parts| > 1 {
      JoinBalanced(parts[1..], sep);
      NoParensBalanced(sep);
      ConcatBalanced(parts[0], sep);
      ConcatBalanced(parts[0] + sep, Join(parts[1..], sep));
    }
  }
}
