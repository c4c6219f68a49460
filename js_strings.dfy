/**
 * The JavaScript string built-ins the phase-4 parsers rely on: `trim`, `split(",")`,
 * `split(/\s+/)`, `toLowerCase`, `endsWith` and `parseInt(s, 10)`.
 */
module JsStrings {
  import opened Wrappers

  /** A code point JavaScript treats as white space (WhiteSpace or LineTerminator):
      what `trim` removes and what the regular expression `\s` matches. */
  predicate IsSpace(c: char) {
    c == ' ' || c == '\t' || c == '\n' || c == '\r' || c == '\U{000B}' || c == '\U{000C}'
    || c == '\U{00A0}' || c == '\U{1680}' || ('\U{2000}' <= c <= '\U{200A}')
    || c == '\U{2028}' || c == '\U{2029}' || c == '\U{202F}' || c == '\U{205F}'
    || c == '\U{3000}' || c == '\U{FEFF}'
  }

  predicate NoSpace(s: string) {
    forall i :: 0 <= i < |s| ==> !IsSpace(s[i])
  }

  /** Neither starts nor ends with white space: what `trim` leaves. */
  predicate IsTrimmed(s: string) {
    s == [] || (!IsSpace(s[0]) && !IsSpace(s[|s| - 1]))
  }

  function TrimStart(s: string): (r: string)
    ensures |r| <= |s| && r == s[|s| - |r|..]
    ensures r == [] || !IsSpace(r[0])
    ensures forall i :: 0 <= i < |s| - |r| ==> IsSpace(s[i])
    decreases |s|
  {
    if s != [] && IsSpace(s[0]) then
      var r := TrimStart(s[1..]);
      assert s[1..][|s| - 1 - |r|..] == s[|s| - |r|..];
      assert forall i :: 1 <= i < |s| - |r| ==> s[i] == s[1..][i - 1];
      r
    else s
  }

  function TrimEnd(s: string): (r: string)
    ensures |r| <= |s| && r == s[..|r|]
    ensures r == [] || !IsSpace(r[|r| - 1])
    ensures forall i :: |r| <= i < |s| ==> IsSpace(s[i])
    decreases |s|
  {
    if s != [] && IsSpace(s[|s| - 1]) then TrimEnd(s[..|s| - 1]) else s
  }

  /** `String.prototype.trim`: the longest slice of `s` that drops only white space at either end. */
  function Trim(s: string): (r: string)
    ensures IsTrimmed(r)
    ensures exists a, b :: 0 <= a <= b <= |s| && r == s[a..b]
                           && (forall i :: 0 <= i < a ==> IsSpace(s[i]))
                           && (forall i :: b <= i < |s| ==> IsSpace(s[i]))
  {
    var t := TrimStart(s);
    var r := TrimEnd(t);
    assert r == s[|s| - |t|..|s| - |t| + |r|];
    assert r == [] || !IsSpace(r[0]) by {
      if r != [] { assert r[0] == t[0]; }
    }
    r
  }

  lemma {:induction false} TrimOfTrimmed(s: string)
    requires IsTrimmed(s)
    ensures Trim(s) == s
  {
  }

  predicate AllSpace(s: string) {
    forall i :: 0 <= i < |s| ==> IsSpace(s[i])
  }

  lemma {:induction false} TrimStartPadding(pre: string, t: string)
    requires AllSpace(pre)
    requires t == [] || !IsSpace(t[0])
    ensures TrimStart(pre + t) == t
    decreases |pre|
  {
    if pre != [] {
      assert (pre + t)[1..] == pre[1..] + t;
      TrimStartPadding(pre[1..], t);
    } else {
      assert pre + t == t;
    }
  }

  lemma {:induction false} TrimEndPadding(t: string, post: string)
    requires AllSpace(post)
    requires t == [] || !IsSpace(t[|t| - 1])
    ensures TrimEnd(t + post) == t
    decreases |post|
  {
    if post != [] {
      assert (t + post)[..|t + post| - 1] == t + post[..|post| - 1];
      TrimEndPadding(t, post[..|post| - 1]);
    } else {
      assert t + post == t;
    }
  }

  /** `trim` removes exactly the white space around a trimmed string. */
  lemma {:induction false} TrimPadding(pre: string, s: string, post: string)
    requires AllSpace(pre) && AllSpace(post) && s != "" && IsTrimmed(s)
    ensures Trim(pre + s + post) == s
  {
    assert pre + s + post == pre + (s + post);
    TrimStartPadding(pre, s + post);
    TrimEndPadding(s, post);
  }

  /** `s.split(sep)` for a one-character separator: the pieces between the separators, empty ones included. */
  function Split(s: string, sep: char): (parts: seq<string>)
    ensures |parts| >= 1
    ensures forall k :: 0 <= k < |parts| ==> sep !in parts[k]
    decreases |s|
  {
    if s == [] then [""]
    else
      var rest := Split(s[1..], sep);
      if s[0] == sep then [""] + rest
      else
        assert sep !in rest[0];
        [[s[0]] + rest[0]] + rest[1..]
  }

  /** `parts.join(sep)` for a one-character separator. */
  function Join(parts: seq<string>, sep: char): string
    decreases |parts|
  {
    if parts == [] then ""
    else if |parts| == 1 then parts[0]
    else parts[0] + [sep] + Join(parts[1..], sep)
  }

  lemma {:induction false} SplitPrefix(p: string, t: string, sep: char)
    requires sep !in p
    ensures Split(p + t, sep) == [p + Split(t, sep)[0]] + Split(t, sep)[1..]
    decreases |p|
  {
    if p != [] {
      assert p + t == [p[0]] + (p[1..] + t);
      assert (p + t)[1..] == p[1..] + t;
      assert p[0] != sep && sep !in p[1..];
      SplitPrefix(p[1..], t, sep);
      var rest := Split(p[1..] + t, sep);
      assert rest[1..] == Split(t, sep)[1..];
      assert [p[0]] + (p[1..] + Split(t, sep)[0]) == p + Split(t, sep)[0];
    } else {
      assert p + t == t && p + Split(t, sep)[0] == Split(t, sep)[0];
    }
  }

  /** Joining the pieces of a split gives back the string. */
  lemma {:induction false} JoinSplit(s: string, sep: char)
    ensures Join(Split(s, sep), sep) == s
    decreases |s|
  {
    if s != [] {
      var rest := Split(s[1..], sep);
      JoinSplit(s[1..], sep);
      if s[0] == sep {
        assert Join([""] + rest, sep) == "" + [sep] + Join(rest, sep);
      } else {
        var parts := [[s[0]] + rest[0]] + rest[1..];
        if |rest| == 1 {
          assert Join(parts, sep) == [s[0]] + rest[0];
        } else {
          assert parts[1..] == rest[1..];
          assert Join(rest, sep) == rest[0] + [sep] + Join(rest[1..], sep);
        }
      }
    }
  }

  /** Splitting a join gives back the pieces, when no piece contains the separator. */
  lemma {:induction false} SplitJoin(parts: seq<string>, sep: char)
    requires |parts| >= 1
    requires forall k :: 0 <= k < |parts| ==> sep !in parts[k]
    ensures Split(Join(parts, sep), sep) == parts
    decreases |parts|
  {
    if |parts| == 1 {
      SplitPrefix(parts[0], "", sep);
      assert parts[0] + "" == parts[0];
    } else {
      var t := [sep] + Join(parts[1..], sep);
      assert Join(parts, sep) == parts[0] + t;
      SplitPrefix(parts[0], t, sep);
      SplitJoin(parts[1..], sep);
      assert t[1..] == Join(parts[1..], sep);
      assert Split(t, sep) == [""] + parts[1..];
      assert parts[0] + "" == parts[0];
    }
  }

  /** `s.split(/\s+/)`: the pieces between maximal runs of white space; a leading or trailing run yields an empty piece. */
  function SplitWs(s: string): (parts: seq<string>)
    ensures |parts| >= 1
    ensures forall k :: 0 <= k < |parts| ==> NoSpace(parts[k])
    decreases |s|
  {
    if s == [] then [""]
    else if IsSpace(s[0]) then [""] + SplitWs(TrimStart(s))
    else
      var rest := SplitWs(s[1..]);
      assert NoSpace([s[0]] + rest[0]) by {
        assert NoSpace(rest[0]);
        forall i | 0 <= i < |[s[0]] + rest[0]| ensures !IsSpace(([s[0]] + rest[0])[i]) {
          if i > 0 { assert ([s[0]] + rest[0])[i] == rest[0][i - 1]; }
        }
      }
      [[s[0]] + rest[0]] + rest[1..]
  }

  lemma {:induction false} SplitWsPrefix(p: string, t: string)
    requires NoSpace(p)
    ensures SplitWs(p + t) == [p + SplitWs(t)[0]] + SplitWs(t)[1..]
    decreases |p|
  {
    if p != [] {
      assert p + t == [p[0]] + (p[1..] + t);
      assert (p + t)[1..] == p[1..] + t;
      assert !IsSpace(p[0]) && NoSpace(p[1..]);
      SplitWsPrefix(p[1..], t);
      var rest := SplitWs(p[1..] + t);
      assert rest[1..] == SplitWs(t)[1..];
      assert [p[0]] + (p[1..] + SplitWs(t)[0]) == p + SplitWs(t)[0];
    } else {
      assert p + t == t && p + SplitWs(t)[0] == SplitWs(t)[0];
    }
  }

  /** Splitting on white space undoes joining with single spaces, when every token is non-empty and space-free. */
  lemma {:induction false} SplitWsJoin(tokens: seq<string>)
    requires |tokens| >= 1
    requires forall k :: 0 <= k < |tokens| ==> tokens[k] != "" && NoSpace(tokens[k])
    ensures SplitWs(Join(tokens, ' ')) == tokens
    decreases |tokens|
  {
    if |tokens| == 1 {
      SplitWsPrefix(tokens[0], "");
      assert tokens[0] + "" == tokens[0];
    } else {
      var u := Join(tokens[1..], ' ');
      var t := [' '] + u;
      assert Join(tokens, ' ') == tokens[0] + t;
      SplitWsPrefix(tokens[0], t);
      SplitWsJoin(tokens[1..]);
      assert u != [] && !IsSpace(u[0]) by {
        JoinStart(tokens[1..], ' ');
      }
      assert TrimStart(t) == u;
      assert SplitWs(t) == [""] + tokens[1..];
      assert tokens[0] + "" == tokens[0];
    }
  }

  /** A non-empty token, a run of white space and a rest that starts with no white space split into the
      token followed by the pieces of the rest: any run of `\s` separates, not only a single space. */
  lemma {:induction false} SplitWsSeparated(p: string, sep: string, t: string)
    requires p != "" && NoSpace(p)
    requires sep != "" && AllSpace(sep)
    requires t == [] || !IsSpace(t[0])
    ensures SplitWs(p + sep + t) == [p] + SplitWs(t)
  {
    assert p + sep + t == p + (sep + t);
    SplitWsPrefix(p, sep + t);
    assert IsSpace((sep + t)[0]);
    TrimStartPadding(sep, t);
    assert SplitWs(sep + t) == [""] + SplitWs(t);
    assert p + "" == p;
  }

  /** The tokens with the white-space runs `seps` between them: `tokens[0] + seps[0] + tokens[1] + ...`. */
  function Interleave(tokens: seq<string>, seps: seq<string>): string
    requires |tokens| >= 1 && |seps| == |tokens| - 1
    decreases |tokens|
  {
    if |tokens| == 1 then tokens[0] else tokens[0] + seps[0] + Interleave(tokens[1..], seps[1..])
  }

  /** Splitting on white space recovers the tokens, whatever non-empty runs of white space separate them. */
  lemma {:induction false} SplitWsInterleave(tokens: seq<string>, seps: seq<string>)
    requires |tokens| >= 1 && |seps| == |tokens| - 1
    requires forall k :: 0 <= k < |tokens| ==> tokens[k] != "" && NoSpace(tokens[k])
    requires forall k :: 0 <= k < |seps| ==> seps[k] != "" && AllSpace(seps[k])
    ensures SplitWs(Interleave(tokens, seps)) == tokens
    decreases |tokens|
  {
    if |tokens| == 1 {
      SplitWsPrefix(tokens[0], "");
      assert tokens[0] + "" == tokens[0];
    } else {
      var t := Interleave(tokens[1..], seps[1..]);
      SplitWsInterleave(tokens[1..], seps[1..]);
      InterleaveStart(tokens[1..], seps[1..]);
      SplitWsSeparated(tokens[0], seps[0], t);
    }
  }

  lemma {:induction false} InterleaveStart(tokens: seq<string>, seps: seq<string>)
    requires |tokens| >= 1 && |seps| == |tokens| - 1 && tokens[0] != ""
    ensures Interleave(tokens, seps) != [] && Interleave(tokens, seps)[0] == tokens[0][0]
  {
    if |tokens| > 1 {
      assert Interleave(tokens, seps) == tokens[0] + (seps[0] + Interleave(tokens[1..], seps[1..]));
    }
  }

  lemma {:induction false} JoinStart(tokens: seq<string>, sep: char)
    requires |tokens| >= 1 && tokens[0] != ""
    ensures Join(tokens, sep) != [] && Join(tokens, sep)[0] == tokens[0][0]
  {
  }

  /** A trimmed string splits into non-empty tokens. */
  lemma {:induction false} SplitWsOfTrimmed(s: string)
    requires s != "" && IsTrimmed(s)
    ensures forall k :: 0 <= k < |SplitWs(s)| ==> SplitWs(s)[k] != ""
  {
    SplitWsTail(s);
  }

  lemma {:induction false} SplitWsTail(s: string)
    requires s == [] || !IsSpace(s[|s| - 1])
    ensures forall k :: 1 <= k < |SplitWs(s)| ==> SplitWs(s)[k] != ""
    ensures s != [] && !IsSpace(s[0]) ==> SplitWs(s)[0] != ""
    decreases |s|
  {
    if s != [] {
      if IsSpace(s[0]) {
        var t := TrimStart(s);
        assert t != [];
        SplitWsTail(t);
      } else {
        SplitWsTail(s[1..]);
      }
    }
  }

  function LowerChar(c: char): char {
    if 'A' <= c <= 'Z' then (c as int + 32) as char
    else if c == '\U{212A}' then 'k'
    else c
  }

  /** `toLowerCase`, for the mappings that can yield a plain ASCII letter: A to Z, and the Kelvin sign to `k`. */
  function Lower(s: string): (r: string)
    ensures |r| == |s|
  {
    seq(|s|, i requires 0 <= i < |s| => LowerChar(s[i]))
  }

  predicate IsLower(s: string) {
    Lower(s) == s
  }

  lemma {:induction false} LowerIdempotent(s: string)
    ensures Lower(Lower(s)) == Lower(s)
  {
    assert forall i :: 0 <= i < |s| ==> Lower(Lower(s))[i] == Lower(s)[i];
  }

  /** A character `toLowerCase` turns into the lower-case ASCII letter `l`: `l` itself, its capital, or,
      for `k`, the Kelvin sign. */
  predicate CaseVariant(c: char, l: char) {
    c == l || ('a' <= l <= 'z' && c as int == l as int - 32) || (l == 'k' && c == '\U{212A}')
  }

  predicate IsAsciiLower(v: string) {
    forall i :: 0 <= i < |v| ==> 'a' <= v[i] <= 'z'
  }

  lemma LowerCharMatches(c: char, l: char)
    requires 'a' <= l <= 'z'
    ensures LowerChar(c) == l <==> CaseVariant(c, l)
  {
  }

  /** Lower-casing yields a lower-case ASCII word exactly when the text spells that word letter by letter,
      each letter in either case. */
  lemma {:induction false} LowerMatches(s: string, v: string)
    requires IsAsciiLower(v)
    ensures Lower(s) == v <==> |s| == |v| && forall i :: 0 <= i < |s| ==> CaseVariant(s[i], v[i])
  {
    if |s| == |v| {
      forall i | 0 <= i < |s| ensures LowerChar(s[i]) == v[i] <==> CaseVariant(s[i], v[i]) {
        LowerCharMatches(s[i], v[i]);
      }
      if forall i :: 0 <= i < |s| ==> CaseVariant(s[i], v[i]) {
        assert forall i :: 0 <= i < |s| ==> Lower(s)[i] == v[i];
      }
    }
  }

  predicate EndsWith(s: string, c: char) {
    |s| > 0 && s[|s| - 1] == c
  }

  predicate IsDigit(c: char) {
    '0' <= c <= '9'
  }

  predicate AllDigits(s: string) {
    forall i :: 0 <= i < |s| ==> IsDigit(s[i])
  }

  /** The longest prefix of `s` made of decimal digits. */
  function DigitPrefix(s: string): (d: string)
    ensures |d| <= |s| && d == s[..|d|] && AllDigits(d)
    ensures |d| < |s| ==> !IsDigit(s[|d|])
    decreases |s|
  {
    if s != [] && IsDigit(s[0]) then [s[0]] + DigitPrefix(s[1..]) else ""
  }

  /** The number written by a string of decimal digits. */
  function DecimalValue(d: string): nat
    requires AllDigits(d)
    decreases |d|
  {
    if d == [] then 0 else DecimalValue(d[..|d| - 1]) * 10 + (d[|d| - 1] as int - '0' as int)
  }

  /** The decimal numeral of `n`, without leading zeros. */
  function Decimal(n: nat): (d: string)
    ensures d != "" && AllDigits(d)
    decreases n
  {
    if n < 10 then [('0' as int + n) as char] else Decimal(n / 10) + [('0' as int + n % 10) as char]
  }

  lemma {:induction false} DecimalRoundTrip(n: nat)
    ensures DecimalValue(Decimal(n)) == n
    decreases n
  {
    if n >= 10 {
      var d := Decimal(n);
      assert d[..|d| - 1] == Decimal(n / 10);
      DecimalRoundTrip(n / 10);
    }
  }

  /** `parseInt(s, 10)`: leading white space, an optional sign, then the longest run of digits; `None` stands for NaN. */
  function ParseInt(s: string): (r: Option<int>)
  {
    var t := TrimStart(s);
    var negative := t != [] && t[0] == '-';
    var body := if t != [] && (t[0] == '-' || t[0] == '+') then t[1..] else t;
    var d := DigitPrefix(body);
    if d == [] then None
    else if negative then Some(0 - DecimalValue(d) as int)
    else Some(DecimalValue(d))
  }

  /** A decimal numeral followed by anything but a digit parses back to its number. */
  lemma {:induction false} ParseIntDecimal(n: nat, rest: string)
    requires rest == [] || !IsDigit(rest[0])
    ensures ParseInt(Decimal(n) + rest) == Some(n)
  {
    var d := Decimal(n);
    var s := d + rest;
    assert s[0] == d[0] && IsDigit(d[0]);
    assert !IsSpace(s[0]) && s[0] != '-' && s[0] != '+';
    assert TrimStart(s) == s;
    assert DigitPrefix(s) == d by {
      DigitPrefixOf(d, rest);
    }
    assert DecimalValue(d) == n by {
      DecimalRoundTrip(n);
    }
  }

  lemma {:induction false} DigitPrefixOf(d: string, rest: string)
    requires AllDigits(d)
    requires rest == [] || !IsDigit(rest[0])
    ensures DigitPrefix(d + rest) == d
  {
    var p := DigitPrefix(d + rest);
    assert p == (d + rest)[..|d|] == d;
  }
}
