/** Characters and strings with the meaning JavaScript gives them in the
    generator: ASCII case mapping, the `\s` class, `includes`, `join` and
    `trim`. */
module Text {

  predicate IsUpper(c: char) { 'A' <= c <= 'Z' }

  predicate IsLower(c: char) { 'a' <= c <= 'z' }

  /** `toUpperCase` of one character (ASCII letters only). */
  function UpperChar(c: char): (r: char)
    ensures !IsLower(r)
    ensures !IsLower(c) ==> r == c
  {
    if IsLower(c) then (c as int - 32) as char else c
  }

  /** `toLowerCase` of one character (ASCII letters only). */
  function LowerChar(c: char): (r: char)
    ensures !IsUpper(r)
    ensures !IsUpper(c) ==> r == c
    ensures IsUpper(c) ==> IsLower(r)
  {
    if IsUpper(c) then (c as int + 32) as char else c
  }

  /** Upper-casing never changes what a character lower-cases to, and
      lower-casing a capital can be undone. */
  lemma CaseMapsAgree(c: char)
    ensures LowerChar(UpperChar(c)) == LowerChar(c)
    ensures IsUpper(c) ==> UpperChar(LowerChar(c)) == c
  {
  }

  /** `toLowerCase` of a string. */
  function Lower(s: string): string
  {
    seq(|s|, k requires 0 <= k < |s| => LowerChar(s[k]))
  }

  lemma LowerAppend(a: string, b: string)
    ensures Lower(a + b) == Lower(a) + Lower(b)
  {
    assert forall k :: 0 <= k < |a + b| ==> Lower(a + b)[k] == (Lower(a) + Lower(b))[k];
  }

  predicate NoUpper(s: string)
  {
    forall k :: 0 <= k < |s| ==> !IsUpper(s[k])
  }

  /** JavaScript's `\s`: the WhiteSpace and LineTerminator code points.
      `trim` removes the same set. */
  predicate IsJsSpace(c: char)
  {
    var k := c as int;
    || 9 <= k <= 13
    || k == 0x20 || k == 0xA0 || k == 0x1680
    || 0x2000 <= k <= 0x200A
    || k == 0x2028 || k == 0x2029 || k == 0x202F || k == 0x205F
    || k == 0x3000 || k == 0xFEFF
  }

  /** The characters a regular-expression `.` does not match. */
  predicate IsLineTerminator(c: char)
  {
    var k := c as int;
    k == 0x0A || k == 0x0D || k == 0x2028 || k == 0x2029
  }

  /** `s.includes(t)`: `t` occurs in `s` at some offset. */
  predicate Contains(s: string, t: string)
    decreases |s|
  {
    t <= s || (|s| > 0 && Contains(s[1..], t))
  }

  lemma {:induction false} ContainsExtend(s: string, t: string, u: string)
    requires Contains(s, t)
    ensures Contains(s + u, t)
    decreases |s|
  {
    if t <= s {
      assert (s + u)[..|t|] == s[..|t|];
    } else {
      assert (s + u)[1..] == s[1..] + u;
      ContainsExtend(s[1..], t, u);
    }
  }

  lemma {:induction false} ContainsInfix(a: string, t: string, b: string)
    ensures Contains(a + t + b, t)
    decreases |a|
  {
    if |a| == 0 {
      assert a + t + b == t + b;
      assert (t + b)[..|t|] == t;
    } else {
      assert (a + t + b)[1..] == a[1..] + t + b;
      ContainsInfix(a[1..], t, b);
    }
  }

  lemma {:induction false} ContainsPrepend(a: string, s: string, t: string)
    requires Contains(s, t)
    ensures Contains(a + s, t)
    decreases |a|
  {
    if |a| == 0 {
      assert a + s == s;
    } else {
      ContainsPrepend(a[1..], s, t);
      assert (a + s)[1..] == a[1..] + s;
      assert Contains((a + s)[1..], t);
    }
  }

  /** A text that contains `t` still contains it once surrounded. */
  lemma ContainsWithin(a: string, s: string, b: string, t: string)
    requires Contains(s, t)
    ensures Contains(a + s + b, t)
  {
    ContainsPrepend(a, s, t);
    ContainsExtend(a + s, t, b);
  }

  /** `Array.prototype.join(sep)`. */
  function Join(xs: seq<string>, sep: string): string
  {
    if |xs| == 0 then ""
    else if |xs| == 1 then xs[0]
    else xs[0] + sep + Join(xs[1..], sep)
  }

  lemma {:induction false} JoinAppend(xs: seq<string>, ys: seq<string>, sep: string)
    requires |xs| > 0 && |ys| > 0
    ensures Join(xs + ys, sep) == Join(xs, sep) + sep + Join(ys, sep)
  {
    if |xs| == 1 {
      assert (xs + ys)[1..] == ys;
    } else {
      assert (xs + ys)[1..] == xs[1..] + ys;
      JoinAppend(xs[1..], ys, sep);
    }
  }

  /** The first item starts the joined text. */
  lemma JoinStartsWithFirst(xs: seq<string>, sep: string)
    requires |xs| > 0
    ensures xs[0] <= Join(xs, sep)
  {
    if |xs| > 1 {
      assert Join(xs, sep) == xs[0] + (sep + Join(xs[1..], sep));
    }
  }

  /** `Join` as a left fold: the items appended one by one to `head`. */
  function JoinAfter(head: string, xs: seq<string>, sep: string): string
    decreases |xs|
  {
    if |xs| == 0 then head else JoinAfter(head + sep + xs[0], xs[1..], sep)
  }

  lemma {:induction false} JoinAfterIsJoin(head: string, xs: seq<string>, sep: string)
    ensures JoinAfter(head, xs, sep) == Join([head] + xs, sep)
    decreases |xs|
  {
    if |xs| > 0 {
      JoinAfterIsJoin(head + sep + xs[0], xs[1..], sep);
      assert ([head] + xs)[1..] == xs;
      if |xs| > 1 {
        assert ([head + sep + xs[0]] + xs[1..])[1..] == xs[1..];
      }
    }
  }

  lemma {:induction false} JoinAfterConcat(head: string, xs: seq<string>, ys: seq<string>, sep: string)
    ensures JoinAfter(head, xs + ys, sep) == JoinAfter(JoinAfter(head, xs, sep), ys, sep)
    decreases |xs|
  {
    if |xs| == 0 {
      assert xs + ys == ys;
    } else {
      assert (xs + ys)[1..] == xs[1..] + ys;
      JoinAfterConcat(head + sep + xs[0], xs[1..], ys, sep);
    }
  }

  /** Replacing one appended item `t` by the items `c` it was joined from,
      and what follows it by a sequence that folds the same after it, leaves
      the folded text unchanged. */
  lemma JoinAfterSplice(head: string, t: string, rest: seq<string>, c: seq<string>, rest': seq<string>, sep: string)
    requires |c| > 0 && Join(c, sep) == t
    requires JoinAfter(head + sep + t, rest, sep) == JoinAfter(head + sep + t, rest', sep)
    ensures JoinAfter(head, [t] + rest, sep) == JoinAfter(head, c + rest', sep)
  {
    assert ([t] + rest)[1..] == rest;
    JoinAfterConcat(head, c, rest', sep);
    JoinAfterIsJoin(head, c, sep);
    JoinAppend([head], c, sep);
  }

  function TrimStart(s: string): (r: string)
    decreases |s|
  {
    if |s| > 0 && IsJsSpace(s[0]) then TrimStart(s[1..]) else s
  }

  function TrimEnd(s: string): (r: string)
    decreases |s|
  {
    if |s| > 0 && IsJsSpace(s[|s| - 1]) then TrimEnd(s[..|s| - 1]) else s
  }

  /** `String.prototype.trim`. */
  function Trim(s: string): string
  {
    TrimEnd(TrimStart(s))
  }

  /** A template literal that opens and closes on a line break and whose own
      text starts and ends with a visible character trims to that text. */
  lemma TrimTemplate(body: string)
    requires |body| > 0 && !IsJsSpace(body[0]) && !IsJsSpace(body[|body| - 1])
    ensures Trim("\n" + body + "\n") == body
  {
    var s := "\n" + body + "\n";
    assert s[1..] == body + "\n";
    assert TrimStart(s) == body + "\n";
    assert (body + "\n")[..|body|] == body;
    assert TrimEnd(body + "\n") == TrimEnd(body);
  }
}
