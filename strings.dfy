/**
 * The parts of Go's `strings` package the scraper relies on: TrimSpace,
 * Join, Fields and ToLower. Strings are sequences of runes.
 */
module Strings {

  /** unicode.IsSpace: the Latin-1 spaces plus the other White_Space runes. */
  predicate IsSpace(c: char) {
    var x := c as int;
    (0x09 <= x <= 0x0D) || x == 0x20 || x == 0x85 || x == 0xA0 || x == 0x1680 ||
    (0x2000 <= x <= 0x200A) || x == 0x2028 || x == 0x2029 || x == 0x202F ||
    x == 0x205F || x == 0x3000
  }

  predicate AllSpace(s: string) {
    forall i | 0 <= i < |s| :: IsSpace(s[i])
  }

  predicate NoSpace(s: string) {
    forall i | 0 <= i < |s| :: !IsSpace(s[i])
  }

  /** True when `s` neither starts nor ends with white space. */
  predicate Trimmed(s: string) {
    s == [] || (!IsSpace(s[0]) && !IsSpace(s[|s| - 1]))
  }

  /** Drops the leading white space of `s`. */
  function TrimLeft(s: string): (r: string)
    ensures |r| <= |s| && r == s[|s| - |r|..]
    ensures AllSpace(s[..|s| - |r|])
    ensures r == [] || !IsSpace(r[0])
  {
    if s != [] && IsSpace(s[0]) then
      var r := TrimLeft(s[1..]);
      assert s[..|s| - |r|] == [s[0]] + s[1..][..|s| - 1 - |r|];
      r
    else s
  }

  /** Drops the trailing white space of `s`. */
  function TrimRight(s: string): (r: string)
    ensures |r| <= |s| && r == s[..|r|]
    ensures AllSpace(s[|r|..])
    ensures r == [] || !IsSpace(r[|r| - 1])
  {
    if s != [] && IsSpace(s[|s| - 1]) then
      var r := TrimRight(s[..|s| - 1]);
      assert s[|r|..] == s[..|s| - 1][|r|..] + [s[|s| - 1]];
      r
    else s
  }

  /** strings.TrimSpace: removes white space at both ends, never inside. */
  function TrimSpace(s: string): (r: string)
    ensures Trimmed(r)
    ensures r == [] <==> AllSpace(s)
  {
    var l := TrimLeft(s);
    var r := TrimRight(l);
    assert r != [] ==> r[0] == l[0];
    assert AllSpace(s) ==> l == [] by {
      if l != [] { assert l[0] == s[|s| - |l|]; }
    }
    assert r == [] ==> AllSpace(s) by {
      if r == [] {
        assert s == s[..|s| - |l|] + l;
        assert AllSpace(l) by { assert l[|r|..] == l; }
      }
    }
    r
  }

  /** TrimLeft drops exactly a white-space prefix in front of a part that does not start with white space. */
  lemma {:induction false} TrimLeftOfPadded(a: string, rest: string)
    requires AllSpace(a) && (rest == [] || !IsSpace(rest[0]))
    ensures TrimLeft(a + rest) == rest
  {
    if a == [] {
      assert a + rest == rest;
    } else {
      assert (a + rest)[0] == a[0];
      assert (a + rest)[1..] == a[1..] + rest;
      TrimLeftOfPadded(a[1..], rest);
    }
  }

  /** TrimRight drops exactly a white-space suffix behind a part that does not end with white space. */
  lemma {:induction false} TrimRightOfPadded(rest: string, b: string)
    requires AllSpace(b) && (rest == [] || !IsSpace(rest[|rest| - 1]))
    ensures TrimRight(rest + b) == rest
  {
    if b == [] {
      assert rest + b == rest;
    } else {
      var s := rest + b;
      assert s[|s| - 1] == b[|b| - 1];
      assert s[..|s| - 1] == rest + b[..|b| - 1];
      TrimRightOfPadded(rest, b[..|b| - 1]);
    }
  }

  /**
   * TrimSpace is determined by what it keeps: whatever the white-space
   * padding `a` and `b`, a trimmed core `core` comes back unchanged, with any
   * white space inside it kept as it is.
   */
  lemma TrimSpaceOfPadded(a: string, core: string, b: string)
    requires AllSpace(a) && AllSpace(b) && Trimmed(core)
    ensures TrimSpace(a + core + b) == core
  {
    var s := a + core + b;
    if core == [] {
      assert s == a + b;
      assert AllSpace(s) by {
        forall i | 0 <= i < |s| ensures IsSpace(s[i]) {
          if i < |a| { assert s[i] == a[i]; } else { assert s[i] == b[i - |a|]; }
        }
      }
    } else {
      assert s == a + (core + b);
      assert (core + b)[0] == core[0];
      TrimLeftOfPadded(a, core + b);
      TrimRightOfPadded(core, b);
    }
  }

  /** strings.Join: the parts with `sep` between neighbours. */
  function Join(parts: seq<string>, sep: string): string
  {
    if |parts| == 0 then ""
    else if |parts| == 1 then parts[0]
    else parts[0] + sep + Join(parts[1..], sep)
  }

  /** Length of the run of non-space runes that starts `s`. */
  function TokenLength(s: string): (k: nat)
    ensures k <= |s| && NoSpace(s[..k])
    ensures k < |s| ==> IsSpace(s[k])
  {
    if s == [] || IsSpace(s[0]) then 0
    else
      var k := 1 + TokenLength(s[1..]);
      assert s[..k] == [s[0]] + s[1..][..k - 1];
      k
  }

  /** strings.Fields: the maximal runs of non-space runes, in order. */
  function Fields(s: string): (r: seq<string>)
    ensures forall i | 0 <= i < |r| :: r[i] != [] && NoSpace(r[i])
    decreases |s|
  {
    if s == [] then []
    else if IsSpace(s[0]) then Fields(s[1..])
    else
      var k := TokenLength(s);
      [s[..k]] + Fields(s[k..])
  }

  /** Fields of a string made of white space alone is empty. */
  lemma {:induction false} FieldsOfSpace(s: string)
    requires AllSpace(s)
    ensures Fields(s) == []
    decreases |s|
  {
    if s != [] {
      FieldsOfSpace(s[1..]);
    }
  }

  lemma FieldsOfToken(tok: string, rest: string)
    requires tok != [] && NoSpace(tok)
    requires rest == [] || IsSpace(rest[0])
    ensures Fields(tok + rest) == [tok] + Fields(rest)
  {
    var s := tok + rest;
    var k := TokenLength(s);
    assert forall i | 0 <= i < |tok| :: s[i] == tok[i];
    assert |tok| < |s| ==> s[|tok|] == rest[0];
    assert k == |tok|;
    assert s[..k] == tok && s[k..] == rest;
  }

  /** White space in front of a string does not change its fields. */
  lemma {:induction false} FieldsOfLeadingSpace(a: string, s: string)
    requires AllSpace(a)
    ensures Fields(a + s) == Fields(s)
    decreases |a|
  {
    if a == [] {
      assert a + s == s;
    } else {
      assert (a + s)[0] == a[0] && IsSpace(a[0]);
      assert (a + s)[1..] == a[1..] + s;
      FieldsOfLeadingSpace(a[1..], s);
    }
  }

  /**
   * Fields of tokens joined by a white-space separator, white space after:
   * the tokens, when they are non-empty and free of white space.
   */
  lemma {:induction false} FieldsOfSeparated(tokens: seq<string>, sep: string, trail: string)
    requires forall i | 0 <= i < |tokens| :: tokens[i] != [] && NoSpace(tokens[i])
    requires sep != [] && AllSpace(sep) && AllSpace(trail)
    ensures Fields(Join(tokens, sep) + trail) == tokens
    decreases |tokens|
  {
    if |tokens| == 0 {
      assert Join(tokens, sep) + trail == trail;
      FieldsOfSpace(trail);
    } else if |tokens| == 1 {
      FieldsOfToken(tokens[0], trail);
      FieldsOfSpace(trail);
    } else {
      var rest := Join(tokens[1..], sep);
      FieldsOfSeparated(tokens[1..], sep, trail);
      assert Join(tokens, sep) + trail == tokens[0] + (sep + (rest + trail));
      assert (sep + (rest + trail))[0] == sep[0];
      FieldsOfToken(tokens[0], sep + (rest + trail));
      FieldsOfLeadingSpace(sep, rest + trail);
      assert [tokens[0]] + tokens[1..] == tokens;
    }
  }

  /**
   * Fields undoes Join, for tokens that are non-empty and free of white
   * space, a separator of one or more white-space runes, and any white
   * space before and after.
   */
  lemma FieldsOfJoin(lead: string, tokens: seq<string>, sep: string, trail: string)
    requires forall i | 0 <= i < |tokens| :: tokens[i] != [] && NoSpace(tokens[i])
    requires sep != [] && AllSpace(sep) && AllSpace(lead) && AllSpace(trail)
    ensures Fields(lead + Join(tokens, sep) + trail) == tokens
  {
    assert lead + Join(tokens, sep) + trail == lead + (Join(tokens, sep) + trail);
    FieldsOfLeadingSpace(lead, Join(tokens, sep) + trail);
    FieldsOfSeparated(tokens, sep, trail);
  }

  /** The tokens with `gaps[i]` between token `i` and token `i + 1`. */
  function Spaced(tokens: seq<string>, gaps: seq<string>): string
    requires |tokens| == 0 || |gaps| + 1 == |tokens|
  {
    if |tokens| == 0 then ""
    else if |tokens| == 1 then tokens[0]
    else tokens[0] + gaps[0] + Spaced(tokens[1..], gaps[1..])
  }

  /**
   * Fields of non-empty, space-free tokens with runs of white space of any
   * length and kind between them, and white space after: the tokens.
   */
  lemma {:induction false} FieldsOfSpaced(tokens: seq<string>, gaps: seq<string>, trail: string)
    requires forall i | 0 <= i < |tokens| :: tokens[i] != [] && NoSpace(tokens[i])
    requires |tokens| == 0 || |gaps| + 1 == |tokens|
    requires forall i | 0 <= i < |gaps| :: gaps[i] != [] && AllSpace(gaps[i])
    requires AllSpace(trail)
    ensures Fields(Spaced(tokens, gaps) + trail) == tokens
    decreases |tokens|
  {
    if |tokens| == 0 {
      assert Spaced(tokens, gaps) + trail == trail;
      FieldsOfSpace(trail);
    } else if |tokens| == 1 {
      FieldsOfToken(tokens[0], trail);
      FieldsOfSpace(trail);
    } else {
      var gap := gaps[0];
      var rest := Spaced(tokens[1..], gaps[1..]);
      FieldsOfSpaced(tokens[1..], gaps[1..], trail);
      assert Spaced(tokens, gaps) + trail == tokens[0] + (gap + (rest + trail));
      assert (gap + (rest + trail))[0] == gap[0];
      FieldsOfToken(tokens[0], gap + (rest + trail));
      FieldsOfLeadingSpace(gap, rest + trail);
      assert [tokens[0]] + tokens[1..] == tokens;
    }
  }

  /** The same with any white space in front: Fields recovers exactly the tokens. */
  lemma FieldsOfPaddedSpaced(lead: string, tokens: seq<string>, gaps: seq<string>, trail: string)
    requires forall i | 0 <= i < |tokens| :: tokens[i] != [] && NoSpace(tokens[i])
    requires |tokens| == 0 || |gaps| + 1 == |tokens|
    requires forall i | 0 <= i < |gaps| :: gaps[i] != [] && AllSpace(gaps[i])
    requires AllSpace(lead) && AllSpace(trail)
    ensures Fields(lead + Spaced(tokens, gaps) + trail) == tokens
  {
    var body := Spaced(tokens, gaps) + trail;
    assert lead + Spaced(tokens, gaps) + trail == lead + body;
    FieldsOfLeadingSpace(lead, body);
    FieldsOfSpaced(tokens, gaps, trail);
  }

  /** unicode.ToLower restricted to ASCII letters. */
  function ToLowerChar(c: char): char {
    if 'A' <= c <= 'Z' then (c as int + 32) as char else c
  }

  /** strings.ToLower, rune by rune. */
  function ToLower(s: string): string {
    seq(|s|, i requires 0 <= i < |s| => ToLowerChar(s[i]))
  }
}
