/** String helpers the source gets from the JavaScript runtime: `trim`,
    `Array.prototype.join` and `String(n)` on integers. */
module Text {

  /** ECMAScript WhiteSpace and LineTerminator code points, the characters
      `trim` strips: tab, line feed, vertical tab, form feed, carriage return,
      space, no-break space, the Unicode space separators, the line and
      paragraph separators, and the byte order mark. */
  predicate IsWhitespace(c: char) {
    || '\t' <= c <= '\r'
    || c == ' '
    || c == '\U{00A0}'
    || c == '\U{1680}'
    || '\U{2000}' <= c <= '\U{200A}'
    || c == '\U{2028}'
    || c == '\U{2029}'
    || c == '\U{202F}'
    || c == '\U{205F}'
    || c == '\U{3000}'
    || c == '\U{FEFF}'
  }

  ghost predicate AllWhitespace(s: string) {
    forall i :: 0 <= i < |s| ==> IsWhitespace(s[i])
  }

  /** Drops leading whitespace: the result is a suffix of `s`, everything dropped
      is whitespace, and the result does not start with whitespace. */
  function TrimStart(s: string): (r: string)
    ensures |r| <= |s| && r == s[|s| - |r|..]
    ensures forall i :: 0 <= i < |s| - |r| ==> IsWhitespace(s[i])
    ensures r != [] ==> !IsWhitespace(r[0])
  {
    if |s| > 0 && IsWhitespace(s[0]) then TrimStart(s[1..]) else s
  }

  /** Drops trailing whitespace: the result is a prefix of `s`, everything
      dropped is whitespace, and the result does not end with whitespace. */
  function TrimEnd(s: string): (r: string)
    ensures |r| <= |s| && r == s[..|r|]
    ensures forall i :: |r| <= i < |s| ==> IsWhitespace(s[i])
    ensures r != [] ==> !IsWhitespace(r[|r| - 1])
  {
    if |s| > 0 && IsWhitespace(s[|s| - 1]) then TrimEnd(s[..|s| - 1]) else s
  }

  /** `r` is `s` with the whitespace prefix `s[..a]` and a whitespace suffix
      removed. */
  ghost predicate StripsAt(s: string, a: int, r: string) {
    0 <= a <= |s| - |r| && r == s[a..a + |r|] && AllWhitespace(s[..a]) && AllWhitespace(s[a + |r|..])
  }

  /** `String.prototype.trim`. The result is empty exactly when the input is
      whitespace only, and otherwise neither starts nor ends with whitespace. */
  function Trim(s: string): (r: string)
    ensures r == [] <==> AllWhitespace(s)
    ensures r != [] ==> !IsWhitespace(r[0]) && !IsWhitespace(r[|r| - 1])
  {
    var front := TrimStart(s);
    var r := TrimEnd(front);
    assert r == [] ==> front == [];
    r
  }

  /** Trimming removes whitespace, and only whitespace, from the two ends:
      the result is a stretch of the input with whitespace on either side. */
  lemma TrimStrips(s: string)
    ensures exists a :: StripsAt(s, a, Trim(s))
  {
    var front := TrimStart(s);
    var r := TrimEnd(front);
    var a := |s| - |front|;
    assert r == s[a..a + |r|];
    assert r == Trim(s);
    var head := s[..a];
    forall i | 0 <= i < |head|
      ensures IsWhitespace(head[i])
    {
      assert head[i] == s[i];
    }
    var tail := s[a + |r|..];
    forall i | 0 <= i < |tail|
      ensures IsWhitespace(tail[i])
    {
      assert tail[i] == front[|r| + i];
    }
    assert StripsAt(s, a, r);
  }

  /** A string that neither starts nor ends with whitespace is its own trim. */
  lemma TrimNoOp(s: string)
    requires s != [] && !IsWhitespace(s[0]) && !IsWhitespace(s[|s| - 1])
    ensures Trim(s) == s
  {
  }

  /** `parts.join(sep)`. */
  function Join(parts: seq<string>, sep: string): (r: string)
    ensures |parts| == 0 ==> r == ""
    ensures |parts| > 0 ==> parts[0] <= r
  {
    if |parts| == 0 then ""
    else if |parts| == 1 then parts[0]
    else parts[0] + sep + Join(parts[1..], sep)
  }

  /** The joined text ends with the last part. */
  lemma {:induction false} JoinEndsWithLast(parts: seq<string>, sep: string)
    requires |parts| > 0
    ensures |parts[|parts| - 1]| <= |Join(parts, sep)|
    ensures Join(parts, sep)[|Join(parts, sep)| - |parts[|parts| - 1]|..] == parts[|parts| - 1]
  {
    if |parts| > 1 {
      var rest := Join(parts[1..], sep);
      var last := parts[|parts| - 1];
      JoinEndsWithLast(parts[1..], sep);
      assert parts[1..][|parts[1..]| - 1] == last;
      assert (parts[0] + sep + rest)[|parts[0] + sep + rest| - |last|..] == rest[|rest| - |last|..];
    }
  }

  /** Joining a concatenation of two non-empty lists puts one separator at the seam. */
  lemma {:induction false} JoinConcat(a: seq<string>, b: seq<string>, sep: string)
    requires |a| > 0 && |b| > 0
    ensures Join(a + b, sep) == Join(a, sep) + sep + Join(b, sep)
  {
    if |a| == 1 {
      assert (a + b)[1..] == b;
    } else {
      assert (a + b)[1..] == a[1..] + b;
      JoinConcat(a[1..], b, sep);
    }
  }

  /** The concatenation of a list of lists. */
  function Flatten<T>(xss: seq<seq<T>>): seq<T> {
    if |xss| == 0 then [] else xss[0] + Flatten(xss[1..])
  }

  /** Joining the joins of non-empty groups is joining the flattened groups. */
  lemma {:induction false} JoinFlatten(groups: seq<seq<string>>, sep: string)
    requires |groups| > 0
    requires forall k :: 0 <= k < |groups| ==> |groups[k]| > 0
    ensures Join(seq(|groups|, k requires 0 <= k < |groups| => Join(groups[k], sep)), sep)
         == Join(Flatten(groups), sep)
  {
    var outer := seq(|groups|, k requires 0 <= k < |groups| => Join(groups[k], sep));
    if |groups| == 1 {
      assert Flatten(groups) == groups[0] + Flatten(groups[1..]);
      assert Flatten(groups[1..]) == [];
      assert Flatten(groups) == groups[0];
    } else {
      var rest := groups[1..];
      var outerRest := seq(|rest|, k requires 0 <= k < |rest| => Join(rest[k], sep));
      assert outer[1..] == outerRest;
      JoinFlatten(rest, sep);
      assert |Flatten(rest)| > 0 by {
        FlattenNonEmpty(rest);
      }
      JoinConcat(groups[0], Flatten(rest), sep);
    }
  }

  lemma {:induction false} FlattenNonEmpty<T>(xss: seq<seq<T>>)
    requires |xss| > 0 && |xss[0]| > 0
    ensures |Flatten(xss)| > 0
  {
  }

  function Digit(d: nat): (c: char)
    requires d < 10
    ensures '0' <= c <= '9' && c as int - '0' as int == d
  {
    "0123456789"[d]
  }

  /** `String(n)` for a non-negative integer: its decimal digits, with no
      leading zero except for zero itself. */
  function ShowNat(n: nat): (r: string)
    ensures |r| > 0
    ensures forall i :: 0 <= i < |r| ==> '0' <= r[i] <= '9'
    ensures |r| > 1 ==> r[0] != '0'
    ensures r[0] == '0' ==> n == 0
  {
    if n < 10 then [Digit(n)] else ShowNat(n / 10) + [Digit(n % 10)]
  }

  /** The number a string of decimal digits denotes, as `Number(s)` reads it. */
  function ReadDigits(s: string): nat
    requires forall i :: 0 <= i < |s| ==> '0' <= s[i] <= '9'
  {
    if s == [] then 0 else ReadDigits(s[..|s| - 1]) * 10 + (s[|s| - 1] as int - '0' as int)
  }

  /** The decimal text of a number reads back as that number, so distinct
      page numbers and limits give distinct query values. */
  lemma {:induction false} ReadShowNat(n: nat)
    ensures ReadDigits(ShowNat(n)) == n
  {
    if n >= 10 {
      var r := ShowNat(n);
      assert r[..|r| - 1] == ShowNat(n / 10);
      ReadShowNat(n / 10);
    }
  }

  /** `String(n)` for an integer. */
  function ShowInt(n: int): (r: string)
    ensures n >= 0 ==> r == ShowNat(n)
    ensures n < 0 <==> |r| > 0 && r[0] == '-'
  {
    if n < 0 then "-" + ShowNat(-n) else ShowNat(n)
  }

  /** `String` is injective on integers. */
  lemma ShowIntInjective(a: int, b: int)
    requires ShowInt(a) == ShowInt(b)
    ensures a == b
  {
    var r := ShowInt(a);
    assert a < 0 <==> b < 0 by {
      assert a < 0 <==> r[0] == '-';
      assert b < 0 <==> r[0] == '-';
    }
    if a < 0 {
      var na: nat, nb: nat := -a, -b;
      assert r == "-" + ShowNat(na) && r == "-" + ShowNat(nb);
      assert ShowNat(na) == r[1..] == ShowNat(nb);
      ReadShowNat(na);
      ReadShowNat(nb);
    } else {
      ReadShowNat(a);
      ReadShowNat(b);
    }
  }
}
