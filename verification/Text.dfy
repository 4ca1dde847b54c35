/** The string operations of Go's strings package that the parsers rely on. */
module Text {
  predicate HasPrefix(s: string, prefix: string) {
    |prefix| <= |s| && s[..|prefix|] == prefix
  }

  function Lower(c: char): char {
    if 'A' <= c <= 'Z' then c - 'A' + 'a' else c
  }

  function Lowered(s: string): (t: string)
    ensures |t| == |s| && forall i :: 0 <= i < |s| ==> t[i] == Lower(s[i])
  {
    seq(|s|, i requires 0 <= i < |s| => Lower(s[i]))
  }

  ghost predicate Capital(c: char) {
    'A' <= c <= 'Z'
  }

  /** Equal, or the same letter once as a capital: 32 lies between the two forms. */
  ghost predicate SameLetter(c: char, d: char) {
    c == d || (Capital(c) && d as int == c as int + 32) || (Capital(d) && c as int == d as int + 32)
  }

  ghost predicate SameUpToCase(a: string, b: string) {
    |a| == |b| && forall i :: 0 <= i < |a| ==> SameLetter(a[i], b[i])
  }

  ghost predicate NoCapitals(s: string) {
    forall i :: 0 <= i < |s| ==> !Capital(s[i])
  }

  lemma LowerIff(c: char, d: char)
    ensures Lower(c) == Lower(d) <==> SameLetter(c, d)
  {
  }

  /** Lower-casing identifies exactly the strings that differ in the case of letters. */
  lemma LoweredIff(a: string, b: string)
    ensures Lowered(a) == Lowered(b) <==> SameUpToCase(a, b)
  {
    if |a| == |b| {
      forall i | 0 <= i < |a| ensures Lowered(a)[i] == Lowered(b)[i] <==> SameLetter(a[i], b[i]) {
        LowerIff(a[i], b[i]);
      }
    }
  }

  /** Without capitals, only equal strings are the same up to case. */
  lemma SameWithoutCapitals(a: string, b: string)
    requires NoCapitals(a) && NoCapitals(b)
    ensures SameUpToCase(a, b) <==> a == b
  {
    if SameUpToCase(a, b) {
      forall i | 0 <= i < |a| ensures a[i] == b[i] {
        assert SameLetter(a[i], b[i]);
      }
    }
  }

  function Digit(d: nat): char
    requires d < 10
  {
    ('0' as int + d) as char
  }

  /** strconv.Itoa of a number that is not negative. */
  function Decimal(n: nat): (s: string)
    ensures s != ""
  {
    if n < 10 then [Digit(n)] else Decimal(n / 10) + [Digit(n % 10)]
  }

  /** The number a string of decimal digits stands for. */
  ghost function ValueOf(digits: string): int {
    if digits == "" then 0 else 10 * ValueOf(digits[..|digits| - 1]) + (digits[|digits| - 1] as int - '0' as int)
  }

  /** Digits without a leading zero. */
  ghost predicate Canonical(digits: string) {
    digits != "" && (forall i :: 0 <= i < |digits| ==> '0' <= digits[i] <= '9') && (|digits| > 1 ==> digits[0] != '0')
  }

  /** A decimal number consists of digits without a leading zero, and reads back. */
  lemma {:induction false} DecimalReadsBack(n: nat)
    ensures ValueOf(Decimal(n)) == n && Canonical(Decimal(n)) && (n > 0 ==> Decimal(n)[0] != '0')
  {
    if n >= 10 {
      DecimalReadsBack(n / 10);
      assert Decimal(n)[..|Decimal(n)| - 1] == Decimal(n / 10);
    }
  }

  lemma {:induction false} CanonicalIsDecimal(digits: string)
    requires Canonical(digits)
    ensures ValueOf(digits) >= 0 && Decimal(ValueOf(digits)) == digits && (digits[0] != '0' ==> ValueOf(digits) > 0)
    decreases |digits|
  {
    var n := |digits| - 1;
    var front, last := digits[..n], digits[n] as int - '0' as int;
    if front == "" {
      assert ValueOf(front) == 0 && ValueOf(digits) == last;
    } else {
      CanonicalIsDecimal(front);
      assert ValueOf(digits) / 10 == ValueOf(front) && ValueOf(digits) % 10 == last;
      assert digits == front + [digits[n]];
    }
  }

  /** strings.IndexByte: the first position of c, or -1. */
  function IndexOf(s: string, c: char): (i: int)
    ensures -1 <= i < |s|
    ensures i >= 0 ==> s[i] == c && c !in s[..i]
    ensures i == -1 ==> c !in s
  {
    if s == "" then -1
    else if s[0] == c then 0
    else
      var i := IndexOf(s[1..], c);
      assert s == [s[0]] + s[1..];
      if i == -1 then -1
      else
        assert s[..i + 1] == [s[0]] + s[1..][..i];
        i + 1
  }

  lemma IndexOfJoin(left: string, c: char, right: string)
    requires c !in left
    ensures IndexOf(left + [c] + right, c) == |left|
  {
    var s := left + [c] + right;
    var i := IndexOf(s, c);
    assert s[|left|] == c && s[..|left|] == left;
    assert i != -1;
  }

  /** unicode.IsSpace. */
  predicate IsSpace(c: char) {
    var n := c as int;
    9 <= n <= 13 || n == 0x20 || n == 0x85 || n == 0xA0 || n == 0x1680 || 0x2000 <= n <= 0x200A
    || n == 0x2028 || n == 0x2029 || n == 0x202F || n == 0x205F || n == 0x3000
  }

  function LeadingBlanks(s: string): (n: nat)
    ensures n <= |s| && (forall i :: 0 <= i < n ==> IsSpace(s[i])) && (n < |s| ==> !IsSpace(s[n]))
  {
    if s == "" || !IsSpace(s[0]) then 0 else 1 + LeadingBlanks(s[1..])
  }

  function TrailingBlanks(s: string): (n: nat)
    ensures n <= |s| && (forall i :: |s| - n <= i < |s| ==> IsSpace(s[i])) && (n < |s| ==> !IsSpace(s[|s| - n - 1]))
  {
    if s == "" || !IsSpace(s[|s| - 1]) then 0 else 1 + TrailingBlanks(s[..|s| - 1])
  }

  /** strings.TrimSpace. */
  function Trim(s: string): (t: string)
    ensures Trimmed(t)
    ensures Trimmed(s) ==> t == s
  {
    var rest := s[LeadingBlanks(s)..];
    rest[..|rest| - TrailingBlanks(rest)]
  }

  predicate Trimmed(s: string) {
    s != "" ==> !IsSpace(s[0]) && !IsSpace(s[|s| - 1])
  }

  ghost predicate Blank(s: string) {
    forall i :: 0 <= i < |s| ==> IsSpace(s[i])
  }

  /** Trimming removes blanks at both ends and nothing else. */
  lemma TrimRemovesBlanks(s: string) returns (lo: nat, hi: nat)
    ensures lo <= hi <= |s| && Trim(s) == s[lo..hi] && Blank(s[..lo]) && Blank(s[hi..])
  {
    lo := LeadingBlanks(s);
    var rest := s[lo..];
    hi := |s| - TrailingBlanks(rest);
    forall i | 0 <= i < |s[hi..]| ensures IsSpace(s[hi..][i]) {
      assert s[hi..][i] == rest[hi - lo + i];
    }
  }

  /** The blanks of ASCII are space, tab, newline, vertical tab, form feed and carriage return. */
  lemma AsciiBlanks(c: char)
    requires c as int < 0x80
    ensures IsSpace(c) <==> c in [' ', '\t', '\n', '\U{0B}', '\U{0C}', '\r']
  {
  }

  lemma TrimLacks(s: string, c: char)
    requires c !in s
    ensures c !in Trim(s)
  {
    var lo, hi := TrimRemovesBlanks(s);
  }

  lemma TrimmedAround(left: string, middle: string, right: string)
    requires Trimmed(left) && Trimmed(right) && left != "" && right != ""
    ensures Trimmed(left + middle + right)
  {
    var s := left + middle + right;
    assert s[0] == left[0] && s[|s| - 1] == right[|right| - 1];
  }

  /** strings.Split on a one-byte separator: always at least one piece. */
  function Split(s: string, c: char): (pieces: seq<string>)
    ensures pieces != []
    decreases |s|
  {
    var i := IndexOf(s, c);
    if i == -1 then [s] else [s[..i]] + Split(s[i + 1..], c)
  }

  function Join(pieces: seq<string>, c: char): string {
    if pieces == [] then ""
    else if |pieces| == 1 then pieces[0]
    else pieces[0] + [c] + Join(pieces[1..], c)
  }

  ghost predicate Piece(piece: string, s: string, c: char) {
    c !in piece && forall x :: x in piece ==> x in s
  }

  lemma SplitOnce(first: string, c: char, rest: string)
    requires c !in first
    ensures Split(first + [c] + rest, c) == [first] + Split(rest, c)
  {
    var s := first + [c] + rest;
    IndexOfJoin(first, c, rest);
    assert s[..|first|] == first && s[|first| + 1..] == rest;
  }

  lemma SplitLone(s: string, c: char)
    requires c !in s
    ensures Split(s, c) == [s]
  {
  }

  lemma JoinOnce(first: string, rest: seq<string>, c: char)
    requires rest != []
    ensures Join([first] + rest, c) == first + [c] + Join(rest, c)
  {
    assert ([first] + rest)[1..] == rest;
  }

  lemma PieceOfPart(piece: string, part: string, s: string, c: char)
    requires Piece(piece, part, c) && forall x :: x in part ==> x in s
    ensures Piece(piece, s, c)
  {
  }

  /** The pieces hold no separator, and joined by it they are the text again. */
  lemma {:induction false} SplitPieces(s: string, c: char)
    ensures Join(Split(s, c), c) == s
    ensures forall piece :: piece in Split(s, c) ==> Piece(piece, s, c)
    decreases |s|
  {
    var i := IndexOf(s, c);
    if i == -1 {
      assert Split(s, c) == [s];
    } else {
      var left, right := s[..i], s[i + 1..];
      SplitPieces(right, c);
      JoinOnce(left, Split(right, c), c);
      assert s == left + [c] + right;
      forall piece | piece in [left] + Split(right, c) ensures Piece(piece, s, c) {
        if piece != left {
          PieceOfPart(piece, right, s, c);
        }
      }
    }
  }

  /** Joining loses nothing as long as no piece holds the separator. */
  lemma {:induction false} SplitJoin(pieces: seq<string>, c: char)
    requires pieces != [] && forall piece :: piece in pieces ==> c !in piece
    ensures Split(Join(pieces, c), c) == pieces
    decreases |pieces|
  {
    var first, rest := pieces[0], pieces[1..];
    assert c !in first by {
      assert first in pieces;
    }
    if rest == [] {
      SplitLone(first, c);
      assert pieces == [first];
    } else {
      assert pieces == [first] + rest;
      SplitJoin(rest, c);
      SplitOnce(first, c, Join(rest, c));
    }
  }

  lemma {:induction false} JoinLacks(pieces: seq<string>, c: char, x: char)
    requires x != c && forall piece :: piece in pieces ==> x !in piece
    ensures x !in Join(pieces, c)
    decreases |pieces|
  {
    if |pieces| > 1 {
      JoinLacks(pieces[1..], c, x);
      assert pieces[0] in pieces;
    } else if pieces != [] {
      assert pieces[0] in pieces;
    }
  }

  lemma {:induction false} JoinTrimmed(pieces: seq<string>, c: char)
    requires pieces != [] && forall piece :: piece in pieces ==> piece != "" && Trimmed(piece)
    ensures Join(pieces, c) != "" && Trimmed(Join(pieces, c))
    decreases |pieces|
  {
    assert pieces[0] in pieces && forall piece :: piece in pieces[1..] ==> piece in pieces;
    if |pieces| > 1 {
      JoinTrimmed(pieces[1..], c);
      TrimmedAround(pieces[0], [c], Join(pieces[1..], c));
    }
  }
}
