/**
 Artifact keys, paths and file URIs (internal/artifacts/local.go) on a POSIX system. A
 string is a sequence of bytes, written as characters below 256. filepath.Clean works on
 segments; url.Parse is modelled for file URIs, with the validity of an authority and of a
 fragment left to parameters.
 */
module KeyPaths {
  import opened Wrappers
  import opened Text

  // ---- filepath.Clean and filepath.Join -------------------------------------------

  /** One path element: a blank or "." is dropped, ".." removes the element before it. */
  function Push(rooted: bool, out: seq<string>, seg: string): seq<string> {
    if seg == "" || seg == "." then out
    else if seg == ".." && out != [] && out[|out| - 1] != ".." then out[..|out| - 1]
    else if seg == ".." && rooted then out
    else out + [seg]
  }

  function Fold(rooted: bool, out: seq<string>, segs: seq<string>): seq<string>
    decreases |segs|
  {
    if segs == [] then out else Fold(rooted, Push(rooted, out, segs[0]), segs[1..])
  }

  predicate Rooted(path: string) {
    path != "" && path[0] == '/'
  }

  function Clean(path: string): string {
    var segs := Fold(Rooted(path), [], Split(path, '/'));
    if Rooted(path) then "/" + Join(segs, '/')
    else if segs == [] then "."
    else Join(segs, '/')
  }

  function JoinPath(root: string, rel: string): string
    requires root != "" && rel != ""
  {
    Clean(root + "/" + rel)
  }

  /** A segment that Clean leaves alone. */
  predicate Normal(seg: string) {
    seg != "" && seg != "." && seg != ".." && '/' !in seg
  }

  ghost predicate AllNormal(segs: seq<string>) {
    forall seg :: seg in segs ==> Normal(seg)
  }

  lemma {:induction false} FoldNormal(rooted: bool, out: seq<string>, segs: seq<string>)
    requires AllNormal(segs)
    ensures Fold(rooted, out, segs) == out + segs
    decreases |segs|
  {
    if segs == [] {
    } else {
      assert segs[0] in segs && segs == [segs[0]] + segs[1..];
      FoldNormal(rooted, out + [segs[0]], segs[1..]);
      assert out + [segs[0]] + segs[1..] == out + segs;
    }
  }

  lemma {:induction false} FoldAppend(rooted: bool, out: seq<string>, a: seq<string>, b: seq<string>)
    ensures Fold(rooted, out, a + b) == Fold(rooted, Fold(rooted, out, a), b)
    decreases |a|
  {
    if a == [] {
      assert a + b == b;
    } else {
      assert (a + b)[0] == a[0] && (a + b)[1..] == a[1..] + b;
      FoldAppend(rooted, Push(rooted, out, a[0]), a[1..], b);
    }
  }

  lemma {:induction false} FoldRooted(out: seq<string>, segs: seq<string>)
    requires AllNormal(out) && forall seg :: seg in segs ==> '/' !in seg
    ensures AllNormal(Fold(true, out, segs))
    decreases |segs|
  {
    if segs == [] {
    } else {
      assert segs[0] in segs;
      assert forall seg :: seg in Push(true, out, segs[0]) ==> Normal(seg);
      FoldRooted(Push(true, out, segs[0]), segs[1..]);
    }
  }

  /** Every element that survives was one of the given ones, and is neither blank nor ".". */
  lemma {:induction false} FoldKeeps(rooted: bool, out: seq<string>, segs: seq<string>)
    ensures forall seg :: seg in Fold(rooted, out, segs) ==> seg in out || (seg in segs && seg != "" && seg != ".")
    decreases |segs|
  {
    if segs == [] {
    } else {
      FoldKeeps(rooted, Push(rooted, out, segs[0]), segs[1..]);
    }
  }

  function Total(segs: seq<string>): nat {
    if segs == [] then 0 else |segs[0]| + 1 + Total(segs[1..])
  }

  lemma {:induction false} TotalAppend(a: seq<string>, b: seq<string>)
    ensures Total(a + b) == Total(a) + Total(b)
    decreases |a|
  {
    if a == [] {
      assert a + b == b;
    } else {
      assert (a + b)[0] == a[0] && (a + b)[1..] == a[1..] + b;
      TotalAppend(a[1..], b);
    }
  }

  lemma {:induction false} JoinLength(segs: seq<string>)
    ensures |Join(segs, '/')| == if segs == [] then 0 else Total(segs) - 1
    decreases |segs|
  {
    if segs == [] {
    } else {
      JoinLength(segs[1..]);
    }
  }

  lemma {:induction false} FoldShrinks(rooted: bool, out: seq<string>, segs: seq<string>)
    ensures Total(Fold(rooted, out, segs)) <= Total(out) + Total(segs)
    decreases |segs|
  {
    if segs == [] {
    } else {
      var next := Push(rooted, out, segs[0]);
      if next == out + [segs[0]] {
        TotalAppend(out, [segs[0]]);
      } else if next != out {
        assert out == next + [out[|out| - 1]];
        TotalAppend(next, [out[|out| - 1]]);
      }
      FoldShrinks(rooted, next, segs[1..]);
    }
  }

  lemma SplitSlash(path: string)
    ensures forall seg :: seg in Split(path, '/') ==> '/' !in seg && Piece(seg, path, '/')
  {
    SplitPieces(path, '/');
  }

  lemma {:induction false} JoinAppend(a: seq<string>, b: seq<string>)
    requires a != [] && b != []
    ensures Join(a + b, '/') == Join(a, '/') + "/" + Join(b, '/')
    decreases |a|
  {
    assert (a + b)[0] == a[0] && (a + b)[1..] == a[1..] + b;
    if |a| > 1 {
      JoinAppend(a[1..], b);
    }
  }

  lemma SplitAt(a: string, b: string)
    ensures Split(a + "/" + b, '/') == Split(a, '/') + Split(b, '/')
  {
    var left, right := Split(a, '/'), Split(b, '/');
    SplitPieces(a, '/');
    SplitPieces(b, '/');
    JoinAppend(left, right);
    forall piece | piece in left + right ensures '/' !in piece {
      assert Piece(piece, a, '/') || Piece(piece, b, '/');
    }
    SplitJoin(left + right, '/');
  }

  /** A clean absolute path and its elements. */
  ghost predicate Spells(path: string, segs: seq<string>) {
    AllNormal(segs) && path == "/" + Join(segs, '/')
  }

  lemma CleanRooted(path: string) returns (segs: seq<string>)
    requires Rooted(path)
    ensures Spells(Clean(path), segs)
  {
    SplitSlash(path);
    segs := Fold(true, [], Split(path, '/'));
    FoldRooted([], Split(path, '/'));
  }

  lemma SplitSpelled(path: string, segs: seq<string>)
    requires Spells(path, segs)
    ensures Fold(true, [], Split(path, '/')) == segs
  {
    var rest := Join(segs, '/');
    SplitAt("", rest);
    assert "" + "/" + rest == path && Split("", '/') == [""];
    FoldAppend(true, [], [""], Split(rest, '/'));
    assert Fold(true, [], [""]) == [];
    if segs == [] {
      assert Split(rest, '/') == [""];
    } else {
      SplitJoin(segs, '/');
      FoldNormal(true, [], segs);
    }
  }

  /** Joining adds the key's elements below the root's. */
  lemma JoinSpelled(root: string, rs: seq<string>, rel: string, ks: seq<string>)
    requires Spells(root, rs) && ks != [] && AllNormal(ks) && rel == Join(ks, '/')
    ensures rel != "" && Spells(JoinPath(root, rel), rs + ks)
  {
    JoinLength(ks);
    assert ks[0] in ks;
    SplitAt(root, rel);
    SplitJoin(ks, '/');
    SplitSpelled(root, rs);
    FoldAppend(true, [], Split(root, '/'), ks);
    FoldNormal(true, rs, ks);
  }

  // ---- What cleaning does to a path ---------------------------------------------------

  ghost predicate FoldsAway(segs: seq<string>) {
    forall rooted, out :: Fold(rooted, out, segs) == out
  }

  /** An element and the ".." behind it cancel out. */
  lemma DetourFoldsAway(seg: string)
    requires Normal(seg)
    ensures FoldsAway([seg, ".."])
  {
    forall rooted, out ensures Fold(rooted, out, [seg, ".."]) == out {
      assert [seg, ".."][1..] == [".."] && [".."][1..] == [];
      assert (out + [seg])[..|out|] == out;
    }
  }

  /** What lies between two parts of a path does not matter if it folds away. */
  lemma CleanWithout(a: string, middle: string, b: string)
    requires FoldsAway(Split(middle, '/'))
    ensures Clean(a + "/" + middle + "/" + b) == Clean(a + "/" + b)
  {
    var left, inner, right := Split(a, '/'), Split(middle, '/'), Split(b, '/');
    SplitAt(a + "/" + middle, b);
    SplitAt(a, middle);
    SplitAt(a, b);
    var rooted := Rooted(a + "/" + b);
    assert rooted == Rooted(a + "/" + middle + "/" + b);
    FoldAppend(rooted, [], left + inner, right);
    FoldAppend(rooted, [], left, inner);
    FoldAppend(rooted, [], left, right);
  }

  /** Going into an element and out again leads nowhere. */
  lemma CleanSkipsDetours(a: string, seg: string, b: string)
    requires Normal(seg)
    ensures Clean(a + "/" + (seg + "/..") + "/" + b) == Clean(a + "/" + b)
  {
    SplitOnce(seg, '/', "..");
    SplitLone("..", '/');
    assert seg + ['/'] + ".." == seg + "/..";
    assert Split(seg + "/..", '/') == [seg, ".."];
    DetourFoldsAway(seg);
    CleanWithout(a, seg + "/..", b);
  }

  /** Neither does a "." or a doubled slash. */
  lemma CleanSkipsDots(a: string, dot: string, b: string)
    requires dot == "." || dot == ""
    ensures Clean(a + "/" + dot + "/" + b) == Clean(a + "/" + b)
  {
    SplitLone(dot, '/');
    assert [dot][1..] == [];
    CleanWithout(a, dot, b);
  }

  // ---- sanitizeKey -------------------------------------------------------------------

  const MAX_KEY_LENGTH := 1024

  predicate BadByte(c: char) {
    c < ' ' || c as int == 0x7F || c == '\\'
  }

  predicate HasDrive(key: string) {
    |key| >= 2 && key[1] == ':'
  }

  function SanitizeKey(key: string): Option<string> {
    if key == "" || |key| > MAX_KEY_LENGTH || (exists c :: c in key && BadByte(c)) || key[0] == '/' ||
      HasDrive(key) then None
    else
      var cleaned := Clean(key);
      if cleaned == "." || cleaned == "" || ".." in Split(cleaned, '/') then None else Some(cleaned)
  }

  /** Cleaning adds no byte. */
  lemma CleanedLacks(key: string, ks: seq<string>, c: char)
    requires ks == Fold(false, [], Split(key, '/')) && c !in key && c != '/'
    ensures c !in Join(ks, '/')
  {
    FoldKeeps(false, [], Split(key, '/'));
    SplitSlash(key);
    forall seg | seg in ks ensures c !in seg {
      assert Piece(seg, key, '/');
    }
    JoinLacks(ks, '/', c);
  }

  /** Cleaning lengthens nothing. */
  lemma CleanedFits(key: string, ks: seq<string>)
    requires ks == Fold(false, [], Split(key, '/'))
    ensures |Join(ks, '/')| <= |key|
  {
    FoldShrinks(false, [], Split(key, '/'));
    SplitPieces(key, '/');
    JoinLength(ks);
    JoinLength(Split(key, '/'));
  }

  lemma CleanedSplits(key: string, ks: seq<string>)
    requires !Rooted(key) && ks != [] && ks == Fold(false, [], Split(key, '/'))
    requires forall seg :: seg in ks ==> '/' !in seg && seg != "" && seg != "."
    ensures Split(Clean(key), '/') == ks && Clean(key) != "." && Clean(key) != ""
  {
    SplitJoin(ks, '/');
    assert ks[0] in ks;
    assert Split(".", '/') == ["."] && Split("", '/') == [""];
  }

  lemma KeptSegments(key: string, ks: seq<string>)
    requires ks == Fold(false, [], Split(key, '/'))
    ensures forall seg :: seg in ks ==> '/' !in seg && seg != "" && seg != "."
  {
    SplitSlash(key);
    FoldKeeps(false, [], Split(key, '/'));
  }

  lemma AcceptedSegments(key: string, ks: seq<string>)
    requires SanitizeKey(key).Some? && ks == Fold(false, [], Split(key, '/'))
    ensures ks != [] && AllNormal(ks) && SanitizeKey(key) == Some(Join(ks, '/'))
  {
    KeptSegments(key, ks);
    if ks != [] {
      CleanedSplits(key, ks);
    }
  }

  lemma AcceptedKey(key: string) returns (ks: seq<string>)
    requires SanitizeKey(key).Some?
    ensures ks != [] && AllNormal(ks) && SanitizeKey(key) == Some(Join(ks, '/'))
    ensures |Join(ks, '/')| <= MAX_KEY_LENGTH && forall c :: c in Join(ks, '/') ==> !BadByte(c)
  {
    ks := Fold(false, [], Split(key, '/'));
    AcceptedSegments(key, ks);
    CleanedFits(key, ks);
    forall c | BadByte(c) ensures c !in Join(ks, '/') {
      CleanedLacks(key, ks, c);
    }
  }

  /** How deep a relative path leads from depth d; None when it climbs above its start on the way. */
  function Depth(segs: seq<string>, d: nat): Option<nat> {
    if segs == [] then Some(d)
    else if segs[0] == "" || segs[0] == "." then Depth(segs[1..], d)
    else if segs[0] != ".." then Depth(segs[1..], d + 1)
    else if d == 0 then None
    else Depth(segs[1..], d - 1)
  }

  lemma {:induction false} LeadingDotsStay(out: seq<string>, segs: seq<string>)
    requires out != [] && out[0] == ".."
    ensures Fold(false, out, segs) != [] && Fold(false, out, segs)[0] == ".."
    decreases |segs|
  {
    if segs == [] {
    } else {
      LeadingDotsStay(Push(false, out, segs[0]), segs[1..]);
    }
  }

  /**
   * Cleaning leaves a ".." exactly when the path climbs above its start, and otherwise as many elements as it leads
   * deep.
   */
  lemma {:induction false} FoldDepth(out: seq<string>, segs: seq<string>)
    requires AllNormal(out) && forall seg :: seg in segs ==> '/' !in seg
    ensures match Depth(segs, |out|)
            case Some(d) => AllNormal(Fold(false, out, segs)) && |Fold(false, out, segs)| == d
            case None => ".." in Fold(false, out, segs)
    decreases |segs|
  {
    if segs == [] {
    } else {
      assert segs[0] in segs;
      var next := Push(false, out, segs[0]);
      if segs[0] == ".." && out == [] {
        LeadingDotsStay(next, segs[1..]);
      } else {
        assert out != [] ==> out[|out| - 1] in out;
        assert forall seg :: seg in next ==> Normal(seg);
        FoldDepth(next, segs[1..]);
      }
    }
  }

  /** The cleaned form is a usable name exactly when the path leads somewhere without climbing above its start. */
  lemma UsableIffDeep(key: string)
    requires key != "" && key[0] != '/'
    ensures Clean(key) != "." && Clean(key) != "" && ".." !in Split(Clean(key), '/') <==>
              Depth(Split(key, '/'), 0).Some? && Depth(Split(key, '/'), 0).value > 0
  {
    var segs := Split(key, '/');
    var ks := Fold(false, [], segs);
    SplitSlash(key);
    FoldDepth([], segs);
    FoldKeeps(false, [], segs);
    if ks != [] {
      CleanedSplits(key, ks);
    }
  }

  /** Neither control bytes nor backslashes. */
  ghost predicate Printable(key: string) {
    forall c :: c in key ==> 0x20 <= c as int && c as int != 0x7F && c != '\\'
  }

  lemma PrintableIff(key: string)
    ensures Printable(key) <==> !exists c :: c in key && BadByte(c)
  {
  }

  /** Which keys are accepted: well-shaped ones that name something and never climb above the root, even on the way. */
  lemma AcceptedIff(key: string)
    ensures SanitizeKey(key).Some? <==>
              && 0 < |key| <= 1024 && Printable(key)
              && key[0] != '/' && (|key| > 1 ==> key[1] != ':')
              && Depth(Split(key, '/'), 0).Some? && Depth(Split(key, '/'), 0).value > 0
  {
    if key != "" && key[0] != '/' {
      PrintableIff(key);
      UsableIffDeep(key);
    }
  }

  lemma CleanNormal(ks: seq<string>)
    requires ks != [] && AllNormal(ks)
    ensures Join(ks, '/') != "" && Join(ks, '/')[0] != '/' && Clean(Join(ks, '/')) == Join(ks, '/') != "."
    ensures Split(Join(ks, '/'), '/') == ks
  {
    assert ks[0] in ks && Join(ks, '/')[0] == ks[0][0];
    SplitJoin(ks, '/');
    FoldNormal(false, [], ks);
    assert [] + ks == ks;
    assert Split(".", '/') == ["."];
  }

  /**
   * Cleaning a cleaned key changes nothing, and it is accepted again exactly when it does not now look like a drive
   * letter.
   */
  lemma CleanedAgainIff(key: string)
    requires SanitizeKey(key).Some?
    ensures var cleaned := SanitizeKey(key).value;
            SanitizeKey(cleaned) == if HasDrive(cleaned) then None else Some(cleaned)
  {
    var ks := AcceptedKey(key);
    CleanNormal(ks);
  }

  lemma DottedClean(x: string)
    requires Normal(x)
    ensures Clean("./" + x) == x && Split(x, '/') == [x]
  {
    var key := "." + "/" + x;
    assert Split(x, '/') == [x] && Split(".", '/') == ["."];
    SplitAt(".", x);
    FoldAppend(false, [], ["."], [x]);
    FoldNormal(false, [], [x]);
    assert Fold(false, [], ["."]) == [] by {
      assert ["."][1..] == [];
    }
    assert key == "./" + x && !Rooted(key) && [] + [x] == [x];
  }

  /**
   * Such keys exist, so sanitizing is not idempotent: a drive-like name behind "./" is accepted, and its cleaned form
   * refused.
   */
  lemma NotIdempotent(x: string)
    requires Normal(x) && HasDrive(x) && |x| + 2 <= MAX_KEY_LENGTH && forall c :: c in x ==> !BadByte(c)
    ensures SanitizeKey("./" + x) == Some(x) && SanitizeKey(x) == None
  {
    DottedClean(x);
    var key := "./" + x;
    assert key[0] == '.' && key[1] == '/' && forall c :: c in key ==> c == '.' || c == '/' || c in x;
  }

  lemma DriveLikeKey()
    ensures Normal("c:x") && HasDrive("c:x") && forall c :: c in "c:x" ==> !BadByte(c)
  {
  }

  // ---- Percent encoding (section 2.1 of RFC 3986) ---------------------------------------

  predicate SafeMark(c: char) {
    c == '-' || c == '_' || c == '.' || c == '~' || c == '$' || c == '&' || c == '+' || c == ',' || c == '/' ||
      c == ':' || c == ';'
    || c == '=' || c == '@'
  }

  /** The bytes url.URL leaves alone in a path. */
  predicate Safe(c: char) {
    'a' <= c <= 'z' || 'A' <= c <= 'Z' || '0' <= c <= '9' || SafeMark(c)
  }

  function HexDigit(d: nat): char
    requires d < 16
  {
    "0123456789ABCDEF"[d]
  }

  function UnHex(c: char): Option<nat> {
    if '0' <= c <= '9' then Some(c as int - '0' as int)
    else if 'a' <= c <= 'f' then Some(c as int - 'a' as int + 10)
    else if 'A' <= c <= 'F' then Some(c as int - 'A' as int + 10)
    else None
  }

  lemma UnHexDigit(d: nat)
    requires d < 16
    ensures UnHex(HexDigit(d)) == Some(d) && Safe(HexDigit(d))
  {
  }

  function EncodeByte(c: char): string {
    if Safe(c) then [c] else ['%', HexDigit(c as int / 16 % 16), HexDigit(c as int % 16)]
  }

  /** The bytes of a path that a URI shows as they are; every other byte is written as two upper-case hex digits. */
  lemma PlainBytes(c: char)
    requires c as int < 256
    ensures EncodeByte(c) == [c] <==>
              || 'a' <= c <= 'z' || 'A' <= c <= 'Z' || '0' <= c <= '9'
              || c in {'-', '_', '.', '~', '$', '&', '+', ',', '/', ':', ';', '=', '@'}
    ensures EncodeByte(c) != [c] ==>
              EncodeByte(c) == ['%', "0123456789ABCDEF"[c as int / 16], "0123456789ABCDEF"[c as int % 16]]
  {
  }

  function Encode(s: string): string {
    if s == "" then "" else EncodeByte(s[0]) + Encode(s[1..])
  }

  /** None when a percent sign is not followed by two hex digits. */
  function Decode(s: string): Option<string>
    decreases |s|
  {
    if s == "" then Some("")
    else if s[0] == '%' then
      if |s| < 3 || UnHex(s[1]).None? || UnHex(s[2]).None? then None
      else
        var rest := Decode(s[3..]);
        if rest.None? then None else Some([Octet(UnHex(s[1]).value, UnHex(s[2]).value)] + rest.value)
    else
      var rest := Decode(s[1..]);
      if rest.None? then None else Some([s[0]] + rest.value)
  }

  function Octet(high: nat, low: nat): char {
    (16 * (high % 16) + low % 16) as char
  }

  ghost predicate Bytes(s: string) {
    forall i :: 0 <= i < |s| ==> s[i] as int < 256
  }

  lemma OctetOf(c: char)
    requires c as int < 256
    ensures Octet(c as int / 16 % 16, c as int % 16) == c
  {
  }

  lemma DecodeEscape(high: nat, low: nat, t: string)
    requires high < 16 && low < 16 && Decode(t).Some?
    ensures Decode(['%', HexDigit(high), HexDigit(low)] + t) == Some([Octet(high, low)] + Decode(t).value)
  {
    UnHexDigit(high);
    UnHexDigit(low);
    var h, l := HexDigit(high), HexDigit(low);
    var s := ['%', h, l] + t;
    assert s[3..] == t && s[0] == '%' && s[1] == h && s[2] == l;
  }

  lemma DecodeByte(c: char, t: string)
    requires c as int < 256 && Decode(t).Some?
    ensures Decode(EncodeByte(c) + t) == Some([c] + Decode(t).value)
  {
    if Safe(c) {
      assert ([c] + t)[1..] == t;
    } else {
      OctetOf(c);
      DecodeEscape(c as int / 16 % 16, c as int % 16, t);
    }
  }

  lemma DecodeCons(c: char, rest: string, encoded: string)
    requires c as int < 256 && Decode(encoded) == Some(rest)
    ensures Decode(EncodeByte(c) + encoded) == Some([c] + rest)
  {
    DecodeByte(c, encoded);
  }

  lemma {:induction false} DecodeEncode(s: string)
    requires Bytes(s)
    ensures Decode(Encode(s)) == Some(s)
    decreases |s|
  {
    if s == "" {
    } else {
      var c, rest := s[0], s[1..];
      DecodeEncode(rest);
      assert [c] + rest == s;
      DecodeCons(c, rest, Encode(rest));
    }
  }

  /** A byte that neither ends the path of a URI nor makes it invalid. */
  predicate PathByte(c: char) {
    c >= ' ' && c as int != 0x7F && c != '#' && c != '?'
  }

  lemma EncodedByteIsPlain(c: char)
    ensures forall x :: x in EncodeByte(c) ==> PathByte(x)
  {
    UnHexDigit(c as int / 16 % 16);
    UnHexDigit(c as int % 16);
  }

  /** An encoded path holds no query, fragment or control byte. */
  lemma {:induction false} EncodedIsPlain(s: string)
    ensures forall c :: c in Encode(s) ==> PathByte(c)
    decreases |s|
  {
    if s == "" {
    } else {
      EncodedIsPlain(s[1..]);
      EncodedByteIsPlain(s[0]);
    }
  }

  // ---- fileURI and pathForURI ------------------------------------------------------------

  function FileURI(path: string): string {
    "file://" + Encode(if Rooted(path) then path else "/" + path)
  }

  /** What url.Parse makes of the parts that pathForURI ignores. */
  datatype Foreign = Foreign(authorityOk: string -> bool, fragmentOk: string -> bool)

  /** The text before the first c. */
  function Before(s: string, c: char): string {
    var i := IndexOf(s, c);
    if i == -1 then s else s[..i]
  }

  /** The path of a file URI as url.Parse gives it; None when parsing fails or the scheme is another. */
  function URIPath(uri: string, foreign: Foreign): Option<string> {
    var hash, base := IndexOf(uri, '#'), Before(uri, '#');
    if (exists c :: c in base && (c < ' ' || c as int == 0x7F)) ||
      (hash != -1 && !foreign.fragmentOk(uri[hash + 1..])) then None
    else if |base| < 5 || Lowered(base[..5]) != "file:" then None
    else
      var rest := Before(base[5..], '?');
      if !Rooted(rest) then Some("")
      else if !HasPrefix(rest, "//") then Decode(rest)
      else
        var authority := Before(rest[2..], '/');
        if !foreign.authorityOk(authority) then None else Decode(rest[2 + |authority|..])
  }

  predicate LooksLikeDrive(path: string) {
    |path| > 2 && path[0] == '/' && path[2] == ':'
  }

  function PathForURI(root: string, uri: string, foreign: Foreign): Option<string> {
    var parsed := URIPath(uri, foreign);
    if parsed.None? then None
    else
      var path := Clean(if LooksLikeDrive(parsed.value) then parsed.value[1..] else parsed.value);
      if HasPrefix(path + "/", Clean(root) + "/") then Some(path) else None
  }

  lemma NotFirst(s: string, c: char)
    requires c !in s
    ensures Before(s, c) == s
  {
  }

  lemma URIPathOf(encoded: string, foreign: Foreign)
    requires Rooted(encoded) && (forall c :: c in encoded ==> PathByte(c)) && foreign.authorityOk("")
    ensures URIPath("file://" + encoded, foreign) == Decode(encoded)
  {
    var uri, rest := "file://" + encoded, "//" + encoded;
    assert uri == "file:" + rest;
    PlainURI(uri, rest);
    assert rest[..2] == "//" && rest[2..] == encoded && Before(encoded, '/') == "";
  }

  const FILE_SCHEME := "file:"

  lemma SchemeIsPlain()
    ensures |FILE_SCHEME| == 5 && Lowered(FILE_SCHEME) == FILE_SCHEME
    ensures forall c :: c in FILE_SCHEME ==> PathByte(c)
  {
  }

  lemma PlainConcat(scheme: string, rest: string)
    requires (forall c :: c in scheme ==> PathByte(c)) && forall c :: c in rest ==> PathByte(c)
    ensures forall c :: c in scheme + rest ==> PathByte(c)
    ensures (scheme + rest)[..|scheme|] == scheme && (scheme + rest)[|scheme|..] == rest
  {
  }

  lemma NoMark(s: string)
    requires forall c :: c in s ==> PathByte(c)
    ensures IndexOf(s, '#') == -1 && Before(s, '?') == s
  {
    assert !PathByte('#') && !PathByte('?');
    assert '#' !in s && '?' !in s;
    NotFirst(s, '?');
  }

  lemma PlainURI(uri: string, rest: string)
    requires uri == FILE_SCHEME + rest && forall c :: c in rest ==> PathByte(c)
    ensures IndexOf(uri, '#') == -1 && forall c :: c in uri ==> PathByte(c)
    ensures |uri| >= 5 && Lowered(uri[..5]) == "file:" && uri[5..] == rest && Before(rest, '?') == rest
  {
    SchemeIsPlain();
    PlainConcat(FILE_SCHEME, rest);
    NoMark(uri);
    NoMark(rest);
  }

  lemma ParseFileURI(path: string, foreign: Foreign)
    requires Rooted(path) && Bytes(path) && foreign.authorityOk("")
    ensures URIPath(FileURI(path), foreign) == Some(path)
  {
    EncodedIsPlain(path);
    DecodeEncode(path);
    assert Encode(path)[0] == '/';
    URIPathOf(Encode(path), foreign);
  }

  /** The elements below the root are what the path adds to it. */
  lemma PathText(root: string, rs: seq<string>, ks: seq<string>)
    requires Spells(root, rs) && ks != [] && AllNormal(ks)
    ensures "/" + Join(rs + ks, '/') == (if rs == [] then "/" else root + "/") + Join(ks, '/')
  {
    if rs == [] {
      assert rs + ks == ks;
    } else {
      JoinAppend(rs, ks);
    }
  }

  /**
   * The path of an accepted key is the root, a slash and the cleaned key, so it lies strictly below the root whatever
   * dots the key had.
   */
  lemma PathIsUnderRoot(root: string, key: string) returns (rs: seq<string>, ks: seq<string>)
    requires Rooted(root) && Clean(root) == root && SanitizeKey(key).Some?
    ensures Spells(root, rs) && ks != [] && AllNormal(ks) && SanitizeKey(key).value == Join(ks, '/') != ""
    ensures Spells(JoinPath(root, SanitizeKey(key).value), rs + ks)
    ensures JoinPath(root, SanitizeKey(key).value) == (if rs == [] then "/" else root + "/") + SanitizeKey(key).value
  {
    rs := CleanRooted(root);
    ks := AcceptedKey(key);
    JoinSpelled(root, rs, SanitizeKey(key).value, ks);
    PathText(root, rs, ks);
  }

  /** Storing under two keys that clean to different names gives different paths and different URIs. */
  lemma DistinctKeysDistinctURIs(root: string, key: string, key': string)
    requires Rooted(root) && Clean(root) == root && Bytes(root) && Bytes(key) && Bytes(key')
    requires SanitizeKey(key).Some? && SanitizeKey(key').Some? && SanitizeKey(key) != SanitizeKey(key')
    ensures FileURI(JoinPath(root, SanitizeKey(key).value)) != FileURI(JoinPath(root, SanitizeKey(key').value))
  {
    var path := PathBytes(root, key);
    var path' := PathBytes(root, key');
    var front := Front(root);
    assert path[|front|..] == SanitizeKey(key).value && path'[|front|..] == SanitizeKey(key').value;
    if FileURI(path) == FileURI(path') {
      SameURI(path, path');
    }
  }

  lemma SameURI(path: string, path': string)
    requires Rooted(path) && Rooted(path') && Bytes(path) && Bytes(path') && FileURI(path) == FileURI(path')
    ensures path == path'
  {
    DecodeEncode(path);
    DecodeEncode(path');
    assert FileURI(path)[7..] == Encode(path) && FileURI(path')[7..] == Encode(path');
  }

  function Front(root: string): string {
    if root == "/" then root else root + "/"
  }

  lemma PathBytes(root: string, key: string) returns (path: string)
    requires Rooted(root) && Clean(root) == root && SanitizeKey(key).Some? && Bytes(root) && Bytes(key)
    ensures SanitizeKey(key).value != "" && path == JoinPath(root, SanitizeKey(key).value)
    ensures path == Front(root) + SanitizeKey(key).value && Rooted(path) && Bytes(path)
  {
    var rs, ks := PathIsUnderRoot(root, key);
    path := JoinPath(root, SanitizeKey(key).value);
    CleanedBytes(key);
    RootLength(root, rs);
  }

  lemma RootLength(root: string, rs: seq<string>)
    requires Spells(root, rs)
    ensures if rs == [] then root == "/" else |root| > 1 && root[0] == '/' && root[1] != '/'
  {
    if rs != [] {
      assert rs[0] in rs && Join(rs, '/')[0] == rs[0][0];
    }
  }

  lemma CleanedBytes(key: string)
    requires SanitizeKey(key).Some? && Bytes(key)
    ensures Bytes(SanitizeKey(key).value)
  {
    var segs := Split(key, '/');
    var ks := Fold(false, [], segs);
    SplitSlash(key);
    FoldKeeps(false, [], segs);
    forall c: char | c as int >= 256 ensures c !in Join(ks, '/') {
      forall seg | seg in ks ensures c !in seg {
        assert Piece(seg, key, '/');
      }
      JoinLacks(ks, '/', c);
    }
    var cleaned := Join(ks, '/');
    forall i | 0 <= i < |cleaned| ensures cleaned[i] as int < 256 {
      assert cleaned[i] in cleaned;
    }
  }

  lemma RelativeStaysRelative(path: string)
    requires !Rooted(path)
    ensures Clean(path) != "" && !Rooted(Clean(path))
  {
    var segs := Split(path, '/');
    var ks := Fold(false, [], segs);
    SplitSlash(path);
    FoldKeeps(false, [], segs);
    if ks != [] {
      assert ks[0] in ks && Join(ks, '/')[0] == ks[0][0];
    }
  }

  /**
   The URI that Put returns leads back to the file it wrote exactly when the root is not "/"
   and has no colon as its third character; otherwise it is refused.
   */
  lemma RoundTripIff(root: string, key: string, foreign: Foreign)
    requires Rooted(root) && Clean(root) == root && Bytes(root) && Bytes(key) && foreign.authorityOk("")
    requires SanitizeKey(key).Some?
    ensures var path := JoinPath(root, SanitizeKey(key).value);
            PathForURI(root, FileURI(path), foreign)
            == if root == "/" || (|root| > 2 && root[2] == ':') then None else Some(path)
  {
    var rs, ks := PathIsUnderRoot(root, key);
    var path := PathBytes(root, key);
    ParseFileURI(path, foreign);
    SplitSpelled(path, rs + ks);
    CleanNormal(ks);
    Check(root, SanitizeKey(key).value, path);
  }

  /** The containment test of PathForURI on a clean path below the root. */
  lemma Check(root: string, rel: string, path: string)
    requires Rooted(root) && Clean(root) == root && rel != "" && rel[0] != '/' && path == Front(root) + rel
    requires Clean(path) == path
    ensures var drive := |root| > 2 && root[2] == ':';
            HasPrefix(Clean(if LooksLikeDrive(path) then path[1..] else path) + "/", root + "/") <==>
              root != "/" && !drive
    ensures root != "/" && !(|root| > 2 && root[2] == ':') ==> !LooksLikeDrive(path)
  {
    var rs := CleanRooted(root);
    RootLength(root, rs);
    if LooksLikeDrive(path) {
      RelativeStaysRelative(path[1..]);
      assert (Clean(path[1..]) + "/")[0] != (root + "/")[0];
    } else if root == "/" {
      assert (path + "/")[1] == rel[0];
    } else {
      assert (path + "/")[..|root| + 1] == root + "/";
    }
  }

  lemma SplitOfSpelled(path: string, segs: seq<string>)
    requires Spells(path, segs) && segs != []
    ensures Split(path, '/') == [""] + segs
  {
    var rest := Join(segs, '/');
    SplitAt("", rest);
    assert "" + "/" + rest == path && Split("", '/') == [""];
    SplitJoin(segs, '/');
  }

  lemma PrefixOfElements(root: string, rs: seq<string>, path: string, ps: seq<string>)
    requires Spells(root, rs) && Spells(path, ps) && rs != [] && HasPrefix(path + "/", root + "/")
    ensures |rs| <= |ps| && ps[..|rs|] == rs
  {
    var tail := (path + "/")[|root| + 1..];
    assert path + "/" + "" == root + "/" + tail;
    RootLength(root, rs);
    RootLength(path, ps);
    SplitOfSpelled(root, rs);
    SplitOfSpelled(path, ps);
    BothSplit(path, root, tail);
    SamePieces(ps, rs, Split(tail, '/'));
  }

  lemma BothSplit(path: string, root: string, tail: string)
    requires path + "/" + "" == root + "/" + tail
    ensures Split(path, '/') + [""] == Split(root, '/') + Split(tail, '/')
  {
    SplitAt(path, "");
    SplitAt(root, tail);
    assert Split("", '/') == [""];
  }

  lemma SamePieces(ps: seq<string>, rs: seq<string>, tail: seq<string>)
    requires [""] + ps + [""] == [""] + rs + tail && tail != []
    ensures |rs| <= |ps| && ps[..|rs|] == rs
  {
    var left, right := [""] + ps + [""], [""] + rs + tail;
    assert |left| == |ps| + 2 && |right| == |rs| + 1 + |tail|;
    forall i | 0 <= i < |rs| ensures ps[i] == rs[i] {
      assert left[i + 1] == ps[i] && right[i + 1] == rs[i];
    }
  }

  /**
   * Whatever URI is presented, an accepted one names the root or something below it, with no dots left to climb out;
   * under the root "/" only the root itself is accepted.
   */
  lemma AnyURIStaysInside(root: string, uri: string, foreign: Foreign) returns (rs: seq<string>, ps: seq<string>)
    requires Rooted(root) && Clean(root) == root && PathForURI(root, uri, foreign).Some?
    ensures Spells(root, rs) && Spells(PathForURI(root, uri, foreign).value, ps)
    ensures |rs| <= |ps| && ps[..|rs|] == rs
    ensures root == "/" ==> ps == []
  {
    rs := CleanRooted(root);
    var parsed := URIPath(uri, foreign).value;
    var raw := if LooksLikeDrive(parsed) then parsed[1..] else parsed;
    var path := Clean(raw);
    assert (path + "/")[0] == (root + "/")[0];
    if !Rooted(raw) {
      RelativeStaysRelative(raw);
    }
    ps := CleanRooted(raw);
    RootLength(root, rs);
    if rs == [] {
      RootLength(path, ps);
      assert (path + "/")[1] == (root + "/")[1];
    } else {
      PrefixOfElements(root, rs, path, ps);
    }
  }
}
