/** The identifier helpers of the generator: `capitalize`, `pascalCase`
    (used to name nested classes) and `toCamelCase` (used to name fields).
    Each regular-expression replacement is modelled as a left-to-right scan
    that carries one bit of state about the previous character. */
module Naming {
  import opened Text

  /** The delimiters `toCamelCase` collapses: `[_-]`. */
  predicate IsCamelSeparator(c: char) { c == '_' || c == '-' }

  /** The delimiters `pascalCase` collapses: `(_|-|\s)`. */
  predicate IsPascalSeparator(c: char) { c == '_' || c == '-' || IsJsSpace(c) }

  predicate NoCamelSeparator(s: string)
  {
    forall k :: 0 <= k < |s| ==> !IsCamelSeparator(s[k])
  }

  predicate NoPascalSeparator(s: string)
  {
    forall k :: 0 <= k < |s| ==> !IsPascalSeparator(s[k])
  }

  /** `s` with every camel separator deleted. */
  function WithoutCamelSeparators(s: string): string
    decreases |s|
  {
    if |s| == 0 then ""
    else (if IsCamelSeparator(s[0]) then "" else [s[0]]) + WithoutCamelSeparators(s[1..])
  }

  /** `s` with every pascal separator deleted. */
  function WithoutPascalSeparators(s: string): string
    decreases |s|
  {
    if |s| == 0 then ""
    else (if IsPascalSeparator(s[0]) then "" else [s[0]]) + WithoutPascalSeparators(s[1..])
  }

  /** `capitalize`: the first character upper-cased, the rest unchanged. */
  function Capitalize(str: string): (r: string)
    ensures |r| == |str| && (|r| > 0 ==> !IsLower(r[0]) && r[1..] == str[1..])
    ensures Lower(r) == Lower(str)
  {
    if |str| == 0 then "" else
      var r := [UpperChar(str[0])] + str[1..];
      CaseMapsAgree(str[0]);
      LowerAppend([UpperChar(str[0])], str[1..]);
      LowerAppend([str[0]], str[1..]);
      assert str == [str[0]] + str[1..];
      r
  }

  // ---------------------------------------------------------------- pascalCase

  /** `replace(/(_|-|\s)+(.)?/g, ...)`: every maximal run of delimiters is
      removed and the character after it, if any, is upper-cased.
      `afterSeparator` records that the scan is just past such a run. The
      character after a maximal run is never a line terminator (those are
      all in `\s`), so `.` always matches it when it exists. */
  function JoinPascalWords(s: string, afterSeparator: bool): (r: string)
    ensures NoPascalSeparator(r)
    decreases |s|
  {
    if |s| == 0 then ""
    else if IsPascalSeparator(s[0]) then JoinPascalWords(s[1..], true)
    else [if afterSeparator then UpperChar(s[0]) else s[0]] + JoinPascalWords(s[1..], false)
  }

  /** `pascalCase`. Its second step, `replace(/^(.)/, upper)`, is `capitalize`:
      `.` skips line terminators, but upper-casing leaves them unchanged. */
  function PascalCase(str: string): (r: string)
    ensures NoPascalSeparator(r)
    ensures |r| > 0 ==> !IsLower(r[0])
    ensures |r| <= |str|
  {
    LengthOfJoinPascal(str, false);
    Capitalize(JoinPascalWords(str, false))
  }

  lemma {:induction false} LengthOfJoinPascal(s: string, afterSeparator: bool)
    ensures |JoinPascalWords(s, afterSeparator)| <= |s|
    decreases |s|
  {
    if |s| > 0 {
      LengthOfJoinPascal(s[1..], IsPascalSeparator(s[0]));
    }
  }

  lemma {:induction false} JoinPascalOfUndelimited(s: string)
    requires NoPascalSeparator(s)
    ensures JoinPascalWords(s, false) == s
    decreases |s|
  {
    if |s| > 0 {
      JoinPascalOfUndelimited(s[1..]);
      assert s == [s[0]] + s[1..];
    }
  }

  /** One step of `JoinPascalWords` over a character that is no delimiter. */
  lemma JoinPascalStep(c: char, rest: string, afterSeparator: bool)
    requires !IsPascalSeparator(c)
    ensures JoinPascalWords([c] + rest, afterSeparator)
      == [if afterSeparator then UpperChar(c) else c] + JoinPascalWords(rest, false)
  {
    assert ([c] + rest)[1..] == rest;
  }

  /** One step of `JoinPascalWords` over a `_`. */
  lemma JoinPascalSkip(rest: string, afterSeparator: bool)
    ensures JoinPascalWords(['_'] + rest, afterSeparator) == JoinPascalWords(rest, true)
  {
    assert (['_'] + rest)[1..] == rest;
  }

  /** A maximal run `d` of delimiters followed by the character `c`: the run
      is dropped and `c` upper-cased, whatever preceded the run. */
  lemma {:induction false} JoinPascalAfterRun(d: string, c: char, b: string, afterSeparator: bool)
    requires |d| > 0 && forall k :: 0 <= k < |d| ==> IsPascalSeparator(d[k])
    requires !IsPascalSeparator(c)
    ensures JoinPascalWords(d + [c] + b, afterSeparator) == [UpperChar(c)] + JoinPascalWords(b, false)
    decreases |d|
  {
    var s := d + [c] + b;
    assert s[0] == d[0];
    if |d| == 1 {
      assert s[1..] == [c] + b;
      assert ([c] + b)[1..] == b;
    } else {
      assert s[1..] == d[1..] + [c] + b;
      JoinPascalAfterRun(d[1..], c, b, true);
    }
  }

  /** A run of delimiters at the end of the input is dropped without a
      trace: the `(.)?` group is empty and the replacement is `''`. */
  lemma {:induction false} JoinPascalOfTrailingRun(d: string, afterSeparator: bool)
    requires forall k :: 0 <= k < |d| ==> IsPascalSeparator(d[k])
    ensures JoinPascalWords(d, afterSeparator) == ""
    decreases |d|
  {
    if |d| > 0 {
      JoinPascalOfTrailingRun(d[1..], true);
    }
  }

  /** A prefix without delimiters passes through `JoinPascalWords` as it is. */
  lemma {:induction false} JoinPascalOfPlainPrefix(a: string, b: string)
    requires NoPascalSeparator(a)
    ensures JoinPascalWords(a + b, false) == a + JoinPascalWords(b, false)
    decreases |a|
  {
    if |a| > 0 {
      JoinPascalOfPlainPrefix(a[1..], b);
      assert (a + b)[0] == a[0] && !IsPascalSeparator(a[0]);
      assert (a + b)[1..] == a[1..] + b;
      assert JoinPascalWords(a + b, false) == [a[0]] + (a[1..] + JoinPascalWords(b, false));
      assert a == [a[0]] + a[1..];
    } else {
      assert a + b == b;
    }
  }

  /** Joining the words of `user id` drops the space and upper-cases the
      letter after it. */
  lemma JoinOfSpacedWords()
    ensures JoinPascalWords("user id", false) == "userId"
  {
    assert "user id" == "user" + (" " + ['i'] + "d");
    JoinPascalOfPlainPrefix("user", " " + ['i'] + "d");
    JoinPascalAfterRun(" ", 'i', "d", false);
    JoinPascalOfUndelimited("d");
    assert "user" + ([UpperChar('i')] + "d") == "userId";
  }

  /** `user id` becomes `UserId`: the words are joined, then the first letter
      is upper-cased. */
  lemma PascalOfSpacedWords()
    ensures PascalCase("user id") == "UserId"
  {
    JoinOfSpacedWords();
    var j := "userId";
    assert Capitalize(j) == [UpperChar(j[0])] + j[1..];
    assert [UpperChar(j[0])] + j[1..] == "UserId";
  }

  /** On a name without delimiters `pascalCase` is `capitalize`: only the
      first character may change, so acronym runs such as `URL` survive. */
  lemma PascalOfUndelimited(s: string)
    requires NoPascalSeparator(s)
    ensures PascalCase(s) == Capitalize(s)
  {
    JoinPascalOfUndelimited(s);
  }

  /** `pascalCase` output is already in pascal form. */
  lemma PascalCaseIdempotent(s: string)
    ensures PascalCase(PascalCase(s)) == PascalCase(s)
  {
    var p := PascalCase(s);
    JoinPascalOfUndelimited(p);
    if |p| > 0 {
      assert [UpperChar(p[0])] + p[1..] == p;
    }
  }

  lemma {:induction false} LettersOfJoinPascal(s: string, afterSeparator: bool)
    ensures Lower(JoinPascalWords(s, afterSeparator)) == Lower(WithoutPascalSeparators(s))
    decreases |s|
  {
    if |s| > 0 {
      LettersOfJoinPascal(s[1..], IsPascalSeparator(s[0]));
      if !IsPascalSeparator(s[0]) {
        var c := if afterSeparator then UpperChar(s[0]) else s[0];
        CaseMapsAgree(s[0]);
        LowerAppend([c], JoinPascalWords(s[1..], false));
        LowerAppend([s[0]], WithoutPascalSeparators(s[1..]));
      }
    }
  }

  /** `pascalCase` only deletes delimiters and changes letter case: apart from
      case, its output is the input without `_`, `-` and white space. */
  lemma PascalCaseKeepsLetters(s: string)
    ensures Lower(PascalCase(s)) == Lower(WithoutPascalSeparators(s))
  {
    var j := JoinPascalWords(s, false);
    LettersOfJoinPascal(s, false);
    if |j| > 0 {
      CaseMapsAgree(j[0]);
      assert Lower(Capitalize(j)) == Lower(j);
    }
  }

  // --------------------------------------------------------------- toCamelCase

  /** `replace(/[_-]+(.)?/g, ...)`: every maximal run of `_`/`-` is removed
      and the character after it is upper-cased when `.` matches it, i.e.
      when it is not a line terminator; otherwise that character stays. */
  function JoinCamelWords(s: string, afterSeparator: bool): (r: string)
    ensures NoCamelSeparator(r)
    ensures |r| <= |s|
    decreases |s|
  {
    if |s| == 0 then ""
    else if IsCamelSeparator(s[0]) then JoinCamelWords(s[1..], true)
    else
      [if afterSeparator && !IsLineTerminator(s[0]) then UpperChar(s[0]) else s[0]]
      + JoinCamelWords(s[1..], false)
  }

  /** `replace(/([A-Z])([A-Z]+)/g, first + rest.toLowerCase())`: inside every
      maximal run of two or more capitals all but the first are lower-cased.
      `afterCapital` says whether the scan is just past a capital. */
  function FoldCapitalRuns(s: string, afterCapital: bool): (r: string)
    ensures |r| == |s|
    decreases |s|
  {
    if |s| == 0 then ""
    else
      [if afterCapital && IsUpper(s[0]) then LowerChar(s[0]) else s[0]]
      + FoldCapitalRuns(s[1..], IsUpper(s[0]))
  }

  /** Position `k` of `FoldCapitalRuns(s, afterCapital)` stated without the
      scan: a capital is lower-cased exactly when the input character before
      it is a capital. */
  function FoldedChar(s: string, afterCapital: bool, k: nat): char
    requires k < |s|
  {
    if IsUpper(s[k]) && (if k == 0 then afterCapital else IsUpper(s[k - 1]))
    then LowerChar(s[k]) else s[k]
  }

  lemma {:induction false} FoldCapitalRunsAt(s: string, afterCapital: bool, k: nat)
    requires k < |s|
    ensures FoldCapitalRuns(s, afterCapital)[k] == FoldedChar(s, afterCapital, k)
    decreases k
  {
    if k > 0 {
      FoldCapitalRunsAt(s[1..], IsUpper(s[0]), k - 1);
      assert s[1..][k - 1] == s[k];
      if k > 1 {
        assert s[1..][k - 2] == s[k - 1];
      }
    }
  }

  /** The scan and the position-wise description agree everywhere. */
  lemma FoldCapitalRunsSpec(s: string, afterCapital: bool)
    ensures forall k: nat :: k < |s| ==> FoldCapitalRuns(s, afterCapital)[k] == FoldedChar(s, afterCapital, k)
  {
    forall k: nat | k < |s|
      ensures FoldCapitalRuns(s, afterCapital)[k] == FoldedChar(s, afterCapital, k)
    {
      FoldCapitalRunsAt(s, afterCapital, k);
    }
  }

  /** `replace(/^[A-Z]/, lower)`. */
  function LowerFirst(s: string): string
  {
    if |s| > 0 && IsUpper(s[0]) then [LowerChar(s[0])] + s[1..] else s
  }

  predicate NoAdjacentCapitals(s: string)
  {
    forall k :: 0 < k < |s| ==> !(IsUpper(s[k - 1]) && IsUpper(s[k]))
  }

  /** The normal form `toCamelCase` produces: no `_` or `-`, no two adjacent
      capitals and no leading capital. */
  predicate CamelNormal(s: string)
  {
    && NoCamelSeparator(s)
    && NoAdjacentCapitals(s)
    && (|s| > 0 ==> !IsUpper(s[0]))
  }

  /** Folding capital runs removes every pair of adjacent capitals and adds
      no delimiter. */
  lemma FoldCapitalRunsNormal(s: string)
    requires NoCamelSeparator(s)
    ensures NoCamelSeparator(FoldCapitalRuns(s, false))
    ensures NoAdjacentCapitals(FoldCapitalRuns(s, false))
  {
    var f := FoldCapitalRuns(s, false);
    FoldCapitalRunsSpec(s, false);
    forall k | 0 < k < |f|
      ensures !(IsUpper(f[k - 1]) && IsUpper(f[k]))
    {
      assert f[k] == FoldedChar(s, false, k);
      assert f[k - 1] == FoldedChar(s, false, k - 1);
    }
    forall k | 0 <= k < |f|
      ensures !IsCamelSeparator(f[k])
    {
      assert f[k] == FoldedChar(s, false, k);
    }
  }

  /** `toCamelCase`: the field name derived from a JSON key. */
  function ToCamelCase(input: string): (r: string)
    ensures CamelNormal(r)
    ensures |r| <= |input|
  {
    var joined := JoinCamelWords(input, false);
    FoldCapitalRunsNormal(joined);
    LowerFirst(FoldCapitalRuns(joined, false))
  }

  lemma {:induction false} JoinCamelOfUndelimited(s: string)
    requires NoCamelSeparator(s)
    ensures JoinCamelWords(s, false) == s
    decreases |s|
  {
    if |s| > 0 {
      JoinCamelOfUndelimited(s[1..]);
      assert s == [s[0]] + s[1..];
    }
  }

  /** A name already in camel normal form is left unchanged. */
  lemma CamelNormalIsFixed(s: string)
    requires CamelNormal(s)
    ensures ToCamelCase(s) == s
  {
    JoinCamelOfUndelimited(s);
    var folded := FoldCapitalRuns(s, false);
    FoldCapitalRunsSpec(s, false);
    assert forall k :: 0 <= k < |s| ==> folded[k] == FoldedChar(s, false, k) == s[k];
    assert folded == s;
  }

  /** `toCamelCase` is idempotent. */
  lemma ToCamelCaseIdempotent(s: string)
    ensures ToCamelCase(ToCamelCase(s)) == ToCamelCase(s)
  {
    CamelNormalIsFixed(ToCamelCase(s));
  }

  lemma {:induction false} LettersOfJoinCamel(s: string, afterSeparator: bool)
    ensures Lower(JoinCamelWords(s, afterSeparator)) == Lower(WithoutCamelSeparators(s))
    decreases |s|
  {
    if |s| > 0 {
      LettersOfJoinCamel(s[1..], IsCamelSeparator(s[0]));
      if !IsCamelSeparator(s[0]) {
        var c := if afterSeparator && !IsLineTerminator(s[0]) then UpperChar(s[0]) else s[0];
        CaseMapsAgree(s[0]);
        LowerAppend([c], JoinCamelWords(s[1..], false));
        LowerAppend([s[0]], WithoutCamelSeparators(s[1..]));
      }
    }
  }

  lemma LettersOfFold(s: string)
    ensures Lower(FoldCapitalRuns(s, false)) == Lower(s)
  {
    var f := FoldCapitalRuns(s, false);
    FoldCapitalRunsSpec(s, false);
    forall k | 0 <= k < |s|
      ensures Lower(f)[k] == Lower(s)[k]
    {
      assert f[k] == FoldedChar(s, false, k);
    }
  }

  /** `toCamelCase` only deletes `_`/`-` and changes letter case: apart from
      case, its output is the key without those delimiters. */
  lemma ToCamelCaseKeepsLetters(s: string)
    ensures Lower(ToCamelCase(s)) == Lower(WithoutCamelSeparators(s))
  {
    var joined := JoinCamelWords(s, false);
    var folded := FoldCapitalRuns(joined, false);
    LettersOfJoinCamel(s, false);
    LettersOfFold(joined);
    assert Lower(LowerFirst(folded)) == Lower(folded) by {
      if |folded| > 0 && IsUpper(folded[0]) {
        LowerAppend([LowerChar(folded[0])], folded[1..]);
        LowerAppend([folded[0]], folded[1..]);
        assert folded == [folded[0]] + folded[1..];
      }
    }
  }

  /** A maximal run `d` of `_`/`-` followed by the character `c`: the run is
      dropped and `c` upper-cased, unless it is a line terminator, which `.`
      does not match and so stays as it is. */
  lemma {:induction false} JoinCamelAfterRun(d: string, c: char, b: string, afterSeparator: bool)
    requires |d| > 0 && forall k :: 0 <= k < |d| ==> IsCamelSeparator(d[k])
    requires !IsCamelSeparator(c)
    ensures JoinCamelWords(d + [c] + b, afterSeparator)
         == [if IsLineTerminator(c) then c else UpperChar(c)] + JoinCamelWords(b, false)
    decreases |d|
  {
    var s := d + [c] + b;
    assert s[0] == d[0];
    if |d| == 1 {
      assert s[1..] == [c] + b;
      assert ([c] + b)[1..] == b;
    } else {
      assert s[1..] == d[1..] + [c] + b;
      JoinCamelAfterRun(d[1..], c, b, true);
    }
  }

  /** A run of `_`/`-` at the end of the input is dropped without a trace. */
  lemma {:induction false} JoinCamelOfTrailingRun(d: string, afterSeparator: bool)
    requires forall k :: 0 <= k < |d| ==> IsCamelSeparator(d[k])
    ensures JoinCamelWords(d, afterSeparator) == ""
    decreases |d|
  {
    if |d| > 0 {
      JoinCamelOfTrailingRun(d[1..], true);
    }
  }

  /** A prefix without `_` or `-` passes through `JoinCamelWords` as it is. */
  lemma {:induction false} JoinCamelOfPlainPrefix(a: string, b: string)
    requires NoCamelSeparator(a)
    ensures JoinCamelWords(a + b, false) == a + JoinCamelWords(b, false)
    decreases |a|
  {
    if |a| > 0 {
      JoinCamelOfPlainPrefix(a[1..], b);
      assert (a + b)[0] == a[0] && !IsCamelSeparator(a[0]);
      assert (a + b)[1..] == a[1..] + b;
      assert JoinCamelWords(a + b, false) == [a[0]] + (a[1..] + JoinCamelWords(b, false));
      assert a == [a[0]] + a[1..];
    } else {
      assert a + b == b;
    }
  }

  /** A prefix without capitals passes through `FoldCapitalRuns` as it is. */
  lemma {:induction false} FoldOfLowerPrefix(a: string, b: string)
    requires NoUpper(a)
    ensures FoldCapitalRuns(a + b, false) == a + FoldCapitalRuns(b, false)
    decreases |a|
  {
    if |a| > 0 {
      assert !IsUpper(a[0]) && NoUpper(a[1..]);
      FoldOfLowerPrefix(a[1..], b);
      assert (a + b)[0] == a[0];
      assert (a + b)[1..] == a[1..] + b;
      assert FoldCapitalRuns(a + b, false) == [a[0]] + (a[1..] + FoldCapitalRuns(b, false));
      assert a == [a[0]] + a[1..];
    } else {
      assert a + b == b;
    }
  }

  /** `user_id` becomes `userId`: the `_` is dropped and the letter after it
      is upper-cased. */
  lemma CamelOfSnakeKey()
    ensures ToCamelCase("user_id") == "userId"
  {
    assert "user_id" == "user" + "_id";
    JoinCamelOfPlainPrefix("user", "_id");
    assert JoinCamelWords("d", false) == "d";
    assert JoinCamelWords("id", true) == "Id";
    assert JoinCamelWords("_id", false) == "Id";
    assert "userId" == "user" + "Id";
    FoldOfLowerPrefix("user", "Id");
    assert FoldCapitalRuns("d", true) == "d";
    assert FoldCapitalRuns("Id", false) == "Id";
  }

  /** Folding the capital run `URL` keeps its first capital only. */
  lemma FoldOfUrl()
    ensures FoldCapitalRuns("URL", false) == "Url"
  {
    assert FoldCapitalRuns("L", true) == "l";
    assert FoldCapitalRuns("RL", true) == "rl";
  }

  /** `URL` becomes `url`: the capital run is folded to `Url`, then the first
      letter is lower-cased. */
  lemma CamelOfCapitalRun()
    ensures ToCamelCase("URL") == "url"
  {
    JoinCamelOfUndelimited("URL");
    FoldOfUrl();
  }

  /** `userURL` becomes `userUrl`: a capital run inside a word keeps its first
      capital only. */
  lemma CamelOfInnerCapitalRun()
    ensures ToCamelCase("userURL") == "userUrl"
  {
    assert "userURL" == "user" + "URL";
    JoinCamelOfPlainPrefix("user", "URL");
    JoinCamelOfUndelimited("URL");
    FoldOfLowerPrefix("user", "URL");
    FoldOfUrl();
    assert "user" + "Url" == "userUrl";
  }

  /** `user-id` becomes `userId`: kebab case is handled like snake case. */
  lemma CamelOfKebabKey()
    ensures ToCamelCase("user-id") == "userId"
  {
    assert "user-id" == "user" + ("-" + ['i'] + "d");
    JoinCamelOfPlainPrefix("user", "-" + ['i'] + "d");
    JoinCamelAfterRun("-", 'i', "d", false);
    JoinCamelOfUndelimited("d");
    assert "user" + ([UpperChar('i')] + "d") == "userId";
    assert "userId" == "user" + "Id";
    FoldOfLowerPrefix("user", "Id");
    assert FoldCapitalRuns("d", true) == "d";
    assert FoldCapitalRuns("Id", false) == "Id";
  }
}
