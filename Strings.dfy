/** String operations of the JavaScript runtime that the outline parsers, the
    serialisers and the exporters rely on, written out on `seq<char>`. */
module Strings {

  /** The characters JavaScript's `trim` removes and the regular-expression
      class `\s` matches: WhiteSpace and LineTerminator of ECMA-262. */
  predicate IsWhitespace(c: char) {
    c == ' ' || c == '\t' || c == '\n' || c == '\r' || c == '\U{000B}' || c == '\U{000C}'
    || c == '\U{00A0}' || c == '\U{1680}' || ('\U{2000}' <= c <= '\U{200A}')
    || c == '\U{2028}' || c == '\U{2029}' || c == '\U{202F}' || c == '\U{205F}'
    || c == '\U{3000}' || c == '\U{FEFF}'
  }

  /** A string that `trim` leaves alone. */
  predicate IsTrimmed(s: string) {
    s == [] || (!IsWhitespace(s[0]) && !IsWhitespace(s[|s| - 1]))
  }

  function TrimStart(s: string): (r: string)
    ensures |r| <= |s| && (r == [] || !IsWhitespace(r[0]))
    ensures r != [] ==> r[|r| - 1] == s[|s| - 1]
  {
    if s != [] && IsWhitespace(s[0]) then TrimStart(s[1..]) else s
  }

  function TrimEnd(s: string): (r: string)
    ensures |r| <= |s| && (r == [] || !IsWhitespace(r[|r| - 1]))
    ensures r != [] ==> r[0] == s[0]
  {
    if s != [] && IsWhitespace(s[|s| - 1]) then TrimEnd(s[..|s| - 1]) else s
  }

  /** `trimStart` cuts a whitespace prefix and stops at the first other
      character. */
  lemma {:induction false} TrimStartIsSuffix(s: string)
    ensures var r := TrimStart(s);
      r == s[|s| - |r|..] && (r == [] || !IsWhitespace(r[0]))
      && forall i :: 0 <= i < |s| - |r| ==> IsWhitespace(s[i])
    decreases |s|
  {
    if s != [] && IsWhitespace(s[0]) {
      TrimStartIsSuffix(s[1..]);
    }
  }

  /** `trimEnd` cuts a whitespace suffix and stops at the last other
      character. */
  lemma {:induction false} TrimEndIsPrefix(s: string)
    ensures var r := TrimEnd(s);
      r == s[..|r|] && (r == [] || !IsWhitespace(r[|r| - 1]))
      && forall i :: |r| <= i < |s| ==> IsWhitespace(s[i])
    decreases |s|
  {
    if s != [] && IsWhitespace(s[|s| - 1]) {
      TrimEndIsPrefix(s[..|s| - 1]);
    }
  }

  /** `String.prototype.trim`. */
  function Trim(s: string): (r: string)
    ensures IsTrimmed(r) && |r| <= |s|
  {
    TrimEnd(TrimStart(s))
  }

  /** What `trim` returns is the infix of `s` left after cutting whitespace
      from both ends, and only whitespace. */
  lemma TrimIsInfix(s: string)
    ensures var a := |s| - |TrimStart(s)|; var r := Trim(s);
      a + |r| <= |s| && r == s[a..a + |r|]
      && (forall i :: 0 <= i < a ==> IsWhitespace(s[i]))
      && (forall i :: a + |r| <= i < |s| ==> IsWhitespace(s[i]))
  {
    TrimStartIsSuffix(s);
    TrimEndIsPrefix(TrimStart(s));
  }

  lemma TrimOfTrimmed(s: string)
    requires IsTrimmed(s)
    ensures Trim(s) == s
  {
  }

  predicate StartsWith(s: string, prefix: string) {
    |prefix| <= |s| && s[..|prefix|] == prefix
  }

  /** `s.includes(p)`: `p` occurs in `s` at some position. */
  predicate Contains(s: string, p: string)
    decreases |s|
  {
    StartsWith(s, p) || (s != [] && Contains(s[1..], p))
  }

  lemma ContainsAt(s: string, p: string, k: nat)
    requires k + |p| <= |s| && s[k..k + |p|] == p
    ensures Contains(s, p)
    decreases k
  {
    if k > 0 {
      assert s[1..][k - 1..k - 1 + |p|] == p;
      ContainsAt(s[1..], p, k - 1);
    }
  }

  lemma NoOccurrenceAt(s: string, p: string, k: nat)
    requires !Contains(s, p) && k + |p| <= |s|
    ensures s[k..k + |p|] != p
  {
    if s[k..k + |p|] == p {
      ContainsAt(s, p, k);
    }
  }

  lemma {:induction false} ContainsWitness(s: string, p: string) returns (k: nat)
    requires Contains(s, p)
    ensures k + |p| <= |s| && s[k..k + |p|] == p
    decreases |s|
  {
    if StartsWith(s, p) {
      k := 0;
    } else {
      var j := ContainsWitness(s[1..], p);
      k := j + 1;
      assert s[k..k + |p|] == s[1..][j..j + |p|];
    }
  }

  /** An occurrence inside an infix is an occurrence in the whole string. */
  lemma ContainsInfix(s: string, a: nat, b: nat, p: string)
    requires a <= b <= |s| && Contains(s[a..b], p)
    ensures Contains(s, p)
  {
    var k := ContainsWitness(s[a..b], p);
    assert |s[a..b]| == b - a;
    forall i | 0 <= i < |p| ensures s[a + k..a + k + |p|][i] == p[i] {
      assert s[a..b][k..k + |p|][i] == s[a..b][k + i] == s[a + k + i];
    }
    assert s[a + k..a + k + |p|] == p;
    ContainsAt(s, p, a + k);
  }

  /** No infix of a string holds what the whole string does not. */
  lemma InfixLacks(s: string, a: nat, b: nat, p: string)
    requires a <= b <= |s| && !Contains(s, p)
    ensures !Contains(s[a..b], p)
  {
    if Contains(s[a..b], p) {
      ContainsInfix(s, a, b, p);
    }
  }

  /** Trimming does not make `p` occur. */
  lemma TrimLacks(s: string, p: string)
    requires !Contains(s, p)
    ensures !Contains(Trim(s), p)
  {
    TrimIsInfix(s);
    var a := |s| - |TrimStart(s)|;
    InfixLacks(s, a, a + |Trim(s)|, p);
  }

  /** Prefixing a string with characters none of which is the first character
      of `p` does not make `p` occur. */
  lemma {:induction false} ContainsAfterPrefix(x: string, s: string, p: string)
    requires |p| > 0 && p[0] !in x
    ensures Contains(x + s, p) == Contains(s, p)
    decreases |x|
  {
    if x != [] {
      assert !StartsWith(x + s, p) by { assert x[0] in x; }
      assert (x + s)[1..] == x[1..] + s;
      assert p[0] !in x[1..] by { assert forall c :: c in x[1..] ==> c in x; }
      ContainsAfterPrefix(x[1..], s, p);
      assert Contains(x + s, p) == Contains(x[1..] + s, p);
    } else {
      assert x + s == s;
    }
  }

  /** A string none of whose characters occurs in `p` does not contain `p`. */
  lemma {:induction false} ContainsForeign(b: string, p: string)
    requires |p| > 0
    requires forall i :: 0 <= i < |b| ==> b[i] !in p
    ensures !Contains(b, p)
    decreases |b|
  {
    if b != [] {
      assert b[0] !in p;
      assert p[0] in p;
      ContainsForeign(b[1..], p);
    }
  }

  /** Appending characters that do not occur in `p` at all does not make
      `p` occur. */
  lemma {:induction false} ContainsAppendForeign(a: string, b: string, p: string)
    requires |p| > 0 && !Contains(a, p)
    requires forall i :: 0 <= i < |b| ==> b[i] !in p
    ensures !Contains(a + b, p)
    decreases |a|
  {
    if a == [] {
      assert a + b == b;
      ContainsForeign(b, p);
    } else {
      if |p| <= |a| + |b| {
        if |p| <= |a| {
          assert (a + b)[..|p|] == a[..|p|];
        } else {
          assert (a + b)[|p| - 1] == b[|p| - 1 - |a|];
          assert p[|p| - 1] in p;
          assert (a + b)[..|p|][|p| - 1] != p[|p| - 1];
        }
      }
      assert (a + b)[1..] == a[1..] + b;
      ContainsAppendForeign(a[1..], b, p);
    }
  }

  /** Lower-casing of one character: ASCII and the Latin-1 Supplement
      capitals (U+00C0 to U+00DE except U+00D7) map to their small letters. */
  function LowerChar(c: char): char {
    if 'A' <= c <= 'Z' || ('\U{00C0}' <= c <= '\U{00DE}' && c != '\U{00D7}')
    then (c as int + 32) as char
    else c
  }

  /** `toLowerCase`, character by character. */
  function Lower(s: string): (r: string)
    ensures |r| == |s| && forall i :: 0 <= i < |s| ==> r[i] == LowerChar(s[i])
  {
    seq(|s|, i requires 0 <= i < |s| => LowerChar(s[i]))
  }

  lemma LowerAppend(a: string, b: string)
    ensures Lower(a + b) == Lower(a) + Lower(b)
  {
  }

  /** `s.replace(/p/g, '')` for a literal pattern `p`: scans left to right and
      drops every non-overlapping occurrence. */
  function DeleteAll(s: string, p: string): (r: string)
    requires |p| > 0
    ensures |r| <= |s|
    ensures forall c :: c in r ==> c in s
    ensures !Contains(s, p) ==> r == s
    decreases |s|
  {
    if s == [] then []
    else if StartsWith(s, p) then DeleteAll(s[|p|..], p)
    else [s[0]] + DeleteAll(s[1..], p)
  }

  /** Deleting every `**` leaves none behind, even where a deletion brings two
      single stars together. */
  lemma {:induction false} DeleteAllDoubleStar(s: string)
    ensures !Contains(DeleteAll(s, "**"), "**")
    decreases |s|
  {
    if s == [] {
    } else if StartsWith(s, "**") {
      DeleteAllDoubleStar(s[2..]);
    } else {
      var rest := DeleteAll(s[1..], "**");
      DeleteAllDoubleStar(s[1..]);
      assert DeleteAll(s, "**") == [s[0]] + rest;
      assert ([s[0]] + rest)[1..] == rest;
    }
  }

  /** A prefix in which no occurrence of `p` starts survives deletion
      unchanged. */
  lemma {:induction false} DeleteAllKeepsPrefix(u: string, v: string, p: string)
    requires |p| > 0
    requires forall k :: 0 <= k < |u| ==> !StartsWith((u + v)[k..], p)
    ensures DeleteAll(u + v, p) == u + DeleteAll(v, p)
    decreases |u|
  {
    if u == [] {
      assert u + v == v;
    } else {
      assert !StartsWith((u + v)[0..], p);
      assert (u + v)[0..] == u + v;
      assert (u + v)[1..] == u[1..] + v;
      forall k | 0 <= k < |u[1..]| ensures !StartsWith((u[1..] + v)[k..], p) {
        assert (u + v)[k + 1..] == (u[1..] + v)[k..];
      }
      DeleteAllKeepsPrefix(u[1..], v, p);
      calc {
        DeleteAll(u + v, p);
        [(u + v)[0]] + DeleteAll((u + v)[1..], p);
        [u[0]] + (u[1..] + DeleteAll(v, p));
        { assert [u[0]] + u[1..] == u; }
        u + DeleteAll(v, p);
      }
    }
  }

  /** `s.replace(/[cs]/g, '')`: drops every character of `cs`. */
  function DeleteChars(s: string, cs: set<char>): (r: string)
    ensures |r| <= |s|
  {
    if s == [] then []
    else (if s[0] in cs then [] else [s[0]]) + DeleteChars(s[1..], cs)
  }

  /** What is left holds only characters of `s` outside `cs`. */
  lemma {:induction false} DeleteCharsRemoves(s: string, cs: set<char>)
    ensures forall c :: c in DeleteChars(s, cs) ==> c in s && c !in cs
    decreases |s|
  {
    if s != [] {
      DeleteCharsRemoves(s[1..], cs);
      assert forall c :: c in s[1..] ==> c in s;
    }
  }

  /** A string with nothing to delete is left as it is. */
  lemma {:induction false} DeleteCharsNothing(s: string, cs: set<char>)
    requires forall i :: 0 <= i < |s| ==> s[i] !in cs
    ensures DeleteChars(s, cs) == s
    decreases |s|
  {
    if s != [] {
      DeleteCharsNothing(s[1..], cs);
      assert [s[0]] + s[1..] == s;
    }
  }

  lemma DeleteCharsKept(c: char, cs: set<char>)
    requires c !in cs
    ensures DeleteChars([c], cs) == [c]
  {
    assert [c][1..] == [];
  }

  lemma {:induction false} DeleteCharsAll(s: string, cs: set<char>)
    requires forall i :: 0 <= i < |s| ==> s[i] in cs
    ensures DeleteChars(s, cs) == []
    decreases |s|
  {
    if s != [] {
      DeleteCharsAll(s[1..], cs);
    }
  }

  lemma {:induction false} DeleteCharsAppend(a: string, b: string, cs: set<char>)
    ensures DeleteChars(a + b, cs) == DeleteChars(a, cs) + DeleteChars(b, cs)
    decreases |a|
  {
    if a != [] {
      assert (a + b)[1..] == a[1..] + b;
      DeleteCharsAppend(a[1..], b, cs);
    } else {
      assert a + b == b;
    }
  }

  lemma DeleteAround(a: string, x: string, b: string, y: string, cs: set<char>)
    ensures DeleteChars(a + (x + (b + y)), cs)
         == DeleteChars(a, cs) + (DeleteChars(x, cs) + (DeleteChars(b, cs) + DeleteChars(y, cs)))
  {
    calc {
      DeleteChars(a + (x + (b + y)), cs);
      { DeleteCharsAppend(a, x + (b + y), cs); }
      DeleteChars(a, cs) + DeleteChars(x + (b + y), cs);
      { DeleteCharsAppend(x, b + y, cs); }
      DeleteChars(a, cs) + (DeleteChars(x, cs) + DeleteChars(b + y, cs));
      { DeleteCharsAppend(b, y, cs); }
      DeleteChars(a, cs) + (DeleteChars(x, cs) + (DeleteChars(b, cs) + DeleteChars(y, cs)));
    }
  }

  /** `s.split('\n')`: the maximal newline-free pieces between newlines. */
  function Split(s: string): (r: seq<string>)
    ensures |r| >= 1
    ensures forall i :: 0 <= i < |r| ==> '\n' !in r[i]
  {
    if s == [] then [""]
    else
      var rest := Split(s[1..]);
      if s[0] == '\n' then [""] + rest
      else [[s[0]] + rest[0]] + rest[1..]
  }

  /** `parts.join(sep)`. */
  function Join(parts: seq<string>, sep: string): string {
    if parts == [] then ""
    else if |parts| == 1 then parts[0]
    else parts[0] + sep + Join(parts[1..], sep)
  }

  lemma {:induction false} JoinAppend(a: seq<string>, b: seq<string>, sep: string)
    requires a != [] && b != []
    ensures Join(a + b, sep) == Join(a, sep) + sep + Join(b, sep)
    decreases |a|
  {
    if |a| > 1 {
      assert (a + b)[1..] == a[1..] + b;
      JoinAppend(a[1..], b, sep);
    }
  }

  lemma {:induction false} SplitPrefix(x: string, s: string)
    requires '\n' !in x
    ensures Split(x + s) == [x + Split(s)[0]] + Split(s)[1..]
    decreases |x|
  {
    if x != [] {
      assert (x + s)[1..] == x[1..] + s;
      assert '\n' !in x[1..] by { assert forall c :: c in x[1..] ==> c in x; }
      SplitPrefix(x[1..], s);
      assert x[0] in x;
      assert [x[0]] + (x[1..] + Split(s)[0]) == x + Split(s)[0];
    } else {
      assert x + s == s && x + Split(s)[0] == Split(s)[0];
      assert Split(s) == [Split(s)[0]] + Split(s)[1..];
    }
  }

  /** Splitting at newlines undoes joining newline-free lines with newlines. */
  lemma {:induction false} SplitJoin(lines: seq<string>)
    requires lines != []
    requires forall i :: 0 <= i < |lines| ==> '\n' !in lines[i]
    ensures Split(Join(lines, "\n")) == lines
    decreases |lines|
  {
    if |lines| == 1 {
      SplitPrefix(lines[0], "");
      assert lines[0] + "" == lines[0] && Split("") == [""];
    } else {
      var rest := Join(lines[1..], "\n");
      SplitJoin(lines[1..]);
      assert lines[0] + "\n" + rest == lines[0] + ("\n" + rest);
      assert ("\n" + rest)[1..] == rest;
      assert Split("\n" + rest) == [""] + lines[1..];
      SplitPrefix(lines[0], "\n" + rest);
      assert lines[0] + "" == lines[0];
      assert lines == [lines[0]] + lines[1..];
    }
  }

  function DigitChar(d: nat): char
    requires d < 10
  {
    "0123456789"[d]
  }

  /** The decimal rendering JavaScript gives a non-negative integer in a
      template literal. */
  function NatToString(n: nat): (r: string)
    ensures |r| >= 1
    ensures forall c :: c in r ==> '0' <= c <= '9'
  {
    if n < 10 then [DigitChar(n)] else NatToString(n / 10) + [DigitChar(n % 10)]
  }
}
