/** Scope of a URL by its decoded path (utils.py, `_relative_url_path`). The check
    looks at the last of up to three percent-decodings (RFC 3986, section 2.1),
    the local path uses the first: what the check excludes from the last must
    therefore be absent from every earlier one. */
module UrlScope {
  import opened Collections

  type Byte = b: int | 0 <= b < 256

  /** Decoding of a run of bytes as UTF-8 with replacement, and lower-casing. */
  datatype Text = Text(utf8: seq<Byte> -> string, lower: string -> string)

  predicate Ascii(c: char) {
    c as int < 128
  }

  predicate SplitsAt(text: Text, a: seq<Byte>, c: char, b: seq<Byte>) {
    Ascii(c) ==> text.utf8(a + [c as int] + b) == text.utf8(a) + [c] + text.utf8(b)
  }

  /** In UTF-8 an ASCII byte always stands for itself, whatever surrounds it. */
  ghost predicate Sound(text: Text) {
    text.utf8([]) == [] && forall a, c, b :: SplitsAt(text, a, c, b)
  }

  // ----------------------------------------------------------- percent-decoding

  predicate Hex(c: char) {
    '0' <= c <= '9' || 'a' <= c <= 'f' || 'A' <= c <= 'F'
  }

  function Digit(c: char): (d: Byte)
    requires Hex(c)
    ensures d < 16
  {
    if c <= '9' then c as int - '0' as int
    else if c <= 'F' then c as int - 'A' as int + 10
    else c as int - 'a' as int + 10
  }

  predicate AllAscii(s: string) {
    forall i | 0 <= i < |s| :: Ascii(s[i])
  }

  predicate Escape(s: string) {
    |s| >= 3 && s[0] == '%' && Hex(s[1]) && Hex(s[2])
  }

  /** How many characters stand for the first byte. */
  function Width(s: string): (n: nat)
    requires s != []
    ensures 1 <= n <= |s|
  {
    if Escape(s) then 3 else 1
  }

  function Head(s: string): Byte
    requires AllAscii(s) && s != []
  {
    if Escape(s) then 16 * Digit(s[1]) + Digit(s[2]) else s[0] as int
  }

  /** `unquote_to_bytes` on an ASCII run. */
  function Bytes(s: string): seq<Byte>
    requires AllAscii(s)
  {
    if s == [] then [] else [Head(s)] + Bytes(s[Width(s)..])
  }

  function Run(s: string): (n: nat)
    ensures n <= |s| && AllAscii(s[..n]) && (n < |s| ==> !Ascii(s[n]))
  {
    if s == [] || !Ascii(s[0]) then 0 else 1 + Run(s[1..])
  }

  /** `urllib.parse.unquote`: each ASCII run is decoded, the rest is kept. */
  function Unquote(text: Text, s: string): string {
    if s == [] then [] else
    if Ascii(s[0]) then text.utf8(Bytes(s[..Run(s)])) + Unquote(text, s[Run(s)..])
    else [s[0]] + Unquote(text, s[1..])
  }

  /** Characters that no escape contains. */
  predicate Literal(c: char) {
    Ascii(c) && c != '%' && !Hex(c)
  }

  lemma HeadSplit(a: string, c: char, b: string)
    requires Literal(c) && AllAscii(a) && AllAscii(b) && a != []
    ensures AllAscii(a + [c] + b) && Head(a + [c] + b) == Head(a) && Width(a + [c] + b) == Width(a)
  {
    assert forall i | 0 <= i < |a| :: (a + [c] + b)[i] == a[i];
  }

  lemma {:induction false} BytesSplit(a: string, c: char, b: string)
    requires Literal(c) && AllAscii(a) && AllAscii(b)
    ensures AllAscii(a + [c] + b) && Bytes(a + [c] + b) == Bytes(a) + [c as int] + Bytes(b)
  {
    hide Head, Width;
    var s := a + [c] + b;
    if a == [] {
      LiteralFirst(c, b);
      assert s == [c] + b;
    } else {
      var k := Width(a);
      HeadSplit(a, c, b);
      assert s[k..] == a[k..] + [c] + b;
      BytesSplit(a[k..], c, b);
    }
  }

  lemma LiteralFirst(c: char, b: string)
    requires Literal(c) && AllAscii(b)
    ensures AllAscii([c] + b) && Bytes([c] + b) == [c as int] + Bytes(b)
  {
    assert ([c] + b)[1..] == b;
  }

  lemma {:induction false} RunIs(s: string, n: nat)
    requires n <= |s| && AllAscii(s[..n]) && (n < |s| ==> !Ascii(s[n]))
    ensures Run(s) == n
  {
    if n > 0 {
      assert s[..n][0] == s[0] && s[1..][..n - 1] == s[..n][1..];
      RunIs(s[1..], n - 1);
    }
  }

  /** A literal character splits the text before decoding as it does after it. */
  lemma {:induction false} UnquoteSplits(text: Text, a: string, c: char, b: string)
    requires Sound(text) && Literal(c)
    ensures Unquote(text, a + [c] + b) == Unquote(text, a) + [c] + Unquote(text, b)
    decreases |a|
  {
    var s := a + [c] + b;
    var n := Run(a);
    if n == |a| {
      UnquoteRun(text, a, c, b);
    } else if n > 0 {
      assert s[..n] == a[..n] && s[n] == a[n];
      RunIs(s, n);
      assert s[n..] == a[n..] + [c] + b;
      UnquoteSplits(text, a[n..], c, b);
    } else {
      assert s[1..] == a[1..] + [c] + b;
      UnquoteSplits(text, a[1..], c, b);
    }
  }

  lemma UnquoteRun(text: Text, a: string, c: char, b: string)
    requires Sound(text) && Literal(c) && AllAscii(a)
    ensures Unquote(text, a + [c] + b) == Unquote(text, a) + [c] + Unquote(text, b)
  {
    hide Bytes, Hex;
    var s, m := a + [c] + b, Run(b);
    var n := |a| + 1 + m;
    assert s[..n] == a + [c] + b[..m];
    BytesSplit(a, c, b[..m]);
    RunIs(s, n);
    assert s[n..] == b[m..];
    assert SplitsAt(text, Bytes(a), c, Bytes(b[..m]));
    RunUnquoted(text, a);
    RunFirst(text, b);
  }

  lemma RunFirst(text: Text, b: string)
    requires Sound(text)
    ensures Unquote(text, b) == text.utf8(Bytes(b[..Run(b)])) + Unquote(text, b[Run(b)..])
  {
    if Run(b) == 0 {
      assert b[..0] == [] && b[0..] == b;
    }
  }

  lemma RunUnquoted(text: Text, a: string)
    requires Sound(text) && AllAscii(a)
    ensures Unquote(text, a) == text.utf8(Bytes(a))
  {
    assert a[..|a|] == a;
    RunIs(a, |a|);
  }

  // -------------------------------------------------- what percent-encoding means

  const LOWER_DIGITS: string := "0123456789abcdef"
  const UPPER_DIGITS: string := "0123456789ABCDEF"

  /** The character is this hexadecimal digit, in either case. */
  predicate HexDigit(c: char, value: int) {
    0 <= value < 16 && (c == LOWER_DIGITS[value] || c == UPPER_DIGITS[value])
  }

  /** The text begins with "%" and the two digits of this byte, the high one first. */
  predicate SpellsEscape(s: string, b: Byte) {
    |s| >= 3 && s[0] == '%' && HexDigit(s[1], b / 16) && HexDigit(s[2], b % 16)
  }

  predicate SpellsNoEscape(s: string) {
    forall b: Byte :: !SpellsEscape(s, b)
  }

  /** A text spells bytes (RFC 3986, section 2.1): each byte as an escape, or as the
      ASCII character itself - "%" only where it begins no escape. */
  predicate Spells(s: string, bytes: seq<Byte>)
    decreases |bytes|
  {
    if s == [] || bytes == [] then s == [] && bytes == [] else
    || (SpellsEscape(s, bytes[0]) && Spells(s[3..], bytes[1..]))
    || (Ascii(s[0]) && s[0] as int == bytes[0] && SpellsNoEscape(s) && Spells(s[1..], bytes[1..]))
  }

  lemma DigitsSpell(c: char)
    ensures Hex(c) ==> HexDigit(c, Digit(c))
    ensures forall v | HexDigit(c, v) :: Hex(c) && Digit(c) == v
  {
    if Hex(c) {
      assert LOWER_DIGITS[Digit(c)] == if Digit(c) < 10 then '0' + Digit(c) as char else 'a' + (Digit(c) - 10) as char;
    }
  }

  lemma EscapeSpells(s: string)
    requires AllAscii(s) && Escape(s)
    ensures SpellsEscape(s, Head(s))
  {
    hide Digit, HexDigit;
    DigitsSpell(s[1]);
    DigitsSpell(s[2]);
    Nibbles(Digit(s[1]), Digit(s[2]));
  }

  lemma Nibbles(high: int, low: int)
    requires 0 <= low < 16
    ensures (16 * high + low) / 16 == high && (16 * high + low) % 16 == low
  {}

  lemma SpelledIsEscape(s: string, b: Byte)
    requires AllAscii(s) && SpellsEscape(s, b)
    ensures Escape(s) && Head(s) == b
  {
    hide Digit, HexDigit;
    DigitsSpell(s[1]);
    DigitsSpell(s[2]);
  }

  lemma EscapesSpell(s: string)
    requires s != [] && AllAscii(s)
    ensures forall b: Byte :: SpellsEscape(s, b) <==> Escape(s) && Head(s) == b
    ensures !Escape(s) <==> SpellsNoEscape(s)
    ensures !Escape(s) ==> Head(s) == s[0] as int
  {
    hide Escape, SpellsEscape;
    if Escape(s) {
      EscapeSpells(s);
    }
    forall b: Byte | SpellsEscape(s, b) ensures Escape(s) && Head(s) == b {
      SpelledIsEscape(s, b);
    }
  }

  /** Decoding gives exactly the bytes that the text spells. */
  lemma {:induction false} DecodesExactlyTheSpelled(s: string, bytes: seq<Byte>)
    requires AllAscii(s)
    ensures Bytes(s) == bytes <==> Spells(s, bytes)
    decreases |s|
  {
    hide Escape, SpellsEscape, SpellsNoEscape, Head;
    if s != [] && bytes != [] {
      EscapesSpell(s);
      var rest := s[Width(s)..];
      DecodesExactlyTheSpelled(rest, bytes[1..]);
      assert bytes == [bytes[0]] + bytes[1..];
      assert Bytes(s) == bytes <==> Head(s) == bytes[0] && Bytes(rest) == bytes[1..];
    }
  }

  lemma {:induction false} SpelledIsAscii(s: string, bytes: seq<Byte>)
    requires Spells(s, bytes)
    ensures AllAscii(s)
    decreases |s|
  {
    if s != [] {
      hide Spells;
      var k := SpelledHead(s, bytes);
      SpelledIsAscii(s[k..], bytes[1..]);
      assert s == s[..k] + s[k..];
    }
  }

  lemma SpelledHead(s: string, bytes: seq<Byte>) returns (k: nat)
    requires Spells(s, bytes) && s != []
    ensures 1 <= k <= |s| && bytes != [] && AllAscii(s[..k]) && Spells(s[k..], bytes[1..])
  {
    k := if SpellsEscape(s, bytes[0]) && Spells(s[3..], bytes[1..]) then 3 else 1;
  }

  /** `unquote` of a spelling is the text that its bytes are in UTF-8. */
  lemma UnquoteIsTheSpelled(text: Text, s: string, bytes: seq<Byte>)
    requires Sound(text) && Spells(s, bytes)
    ensures Unquote(text, s) == text.utf8(bytes)
  {
    SpelledIsAscii(s, bytes);
    DecodesExactlyTheSpelled(s, bytes);
    RunUnquoted(text, s);
  }

  /** A character beyond ASCII stands for itself, and separates what it stands between. */
  lemma {:induction false} UnquoteKeepsOthers(text: Text, a: string, c: char, b: string)
    requires Sound(text) && !Ascii(c)
    ensures Unquote(text, a + [c] + b) == Unquote(text, a) + [c] + Unquote(text, b)
    decreases |a|
  {
    var s := a + [c] + b;
    var n := Run(a);
    if a == [] {
      assert s[1..] == b;
    } else if n > 0 {
      assert s[..n] == a[..n] && s[n] == if n < |a| then a[n] else c;
      RunIs(s, n);
      assert s[n..] == a[n..] + [c] + b;
      UnquoteKeepsOthers(text, a[n..], c, b);
    } else {
      assert s[1..] == a[1..] + [c] + b;
      UnquoteKeepsOthers(text, a[1..], c, b);
    }
  }

  // ------------------------------------------------------------ path components

  /** `path.split("/")` */
  function Split(s: string): (parts: seq<string>)
    ensures |parts| >= 1
  {
    if s == [] then [[]] else
    var rest := Split(s[1..]);
    if s[0] == '/' then [[]] + rest else [[s[0]] + rest[0]] + rest[1..]
  }

  lemma {:induction false} SplitAtSlash(a: string, b: string)
    ensures Split(a + "/" + b) == Split(a) + Split(b)
  {
    var s := a + "/" + b;
    if a == [] {
      assert s[1..] == b;
    } else {
      assert s[1..] == a[1..] + "/" + b;
      SplitAtSlash(a[1..], b);
    }
  }

  lemma {:induction false} SplitWhole(s: string)
    requires '/' !in s
    ensures Split(s) == [s]
  {
    if s != [] {
      assert s[0] in s && s == [s[0]] + s[1..];
      SplitWhole(s[1..]);
    }
  }

  predicate Dots(part: string) {
    part == "." || part == ".."
  }

  predicate Traverses(path: string) {
    exists part | part in Split(path) :: Dots(part)
  }

  predicate Clean(path: string) {
    '\\' !in path && '\0' !in path && !Traverses(path)
  }

  /** The position of the first '/', or the length. */
  function FirstSlash(s: string): (k: nat)
    ensures k <= |s| && '/' !in s[..k] && (k < |s| ==> s[k] == '/')
  {
    if s == [] || s[0] == '/' then 0 else 1 + FirstSlash(s[1..])
  }

  lemma DotsUnquoted(text: Text, part: string)
    requires Sound(text) && Dots(part)
    ensures Unquote(text, part) == part && Split(part) == [part]
  {
    assert Unquote(text, []) == [];
    UnquoteSplits(text, [], '.', []);
    assert [] + ['.'] + [] == ".";
    UnquoteSplits(text, ".", '.', []);
    assert "." + ['.'] + [] == "..";
    SplitWhole(part);
  }

  /** A dot component survives decoding: nothing next to a '/' or a dot can absorb it. */
  lemma {:induction false} DotsSurvive(text: Text, s: string, part: string)
    requires Sound(text) && Dots(part) && part in Split(s)
    ensures part in Split(Unquote(text, s))
    decreases |s|
  {
    var k := FirstSlash(s);
    var a := s[..k];
    SplitWhole(a);
    if k == |s| {
      assert a == s;
      DotsUnquoted(text, part);
    } else {
      var b := s[k + 1..];
      assert s == a + "/" + b;
      SplitAtSlash(a, b);
      UnquoteSplits(text, a, '/', b);
      SplitAtSlash(Unquote(text, a), Unquote(text, b));
      if part == a {
        DotsUnquoted(text, part);
      } else {
        DotsSurvive(text, b, part);
      }
    }
  }

  lemma LiteralSurvives(text: Text, s: string, c: char)
    requires Sound(text) && Literal(c) && c in s
    ensures c in Unquote(text, s)
  {
    var i :| 0 <= i < |s| && s[i] == c;
    assert s == s[..i] + [c] + s[i + 1..];
    UnquoteSplits(text, s[..i], c, s[i + 1..]);
  }

  /** What a decoded path is free of, the path was free of before decoding. */
  lemma CleanBefore(text: Text, s: string)
    requires Sound(text) && Clean(Unquote(text, s))
    ensures Clean(s)
  {
    if '\\' in s {
      LiteralSurvives(text, s, '\\');
    }
    if '\0' in s {
      LiteralSurvives(text, s, '\0');
    }
    forall part | part in Split(s) ensures !Dots(part) {
      if Dots(part) {
        DotsSurvive(text, s, part);
      }
    }
  }

  // ---------------------------------------------------------------- the function

  /** `n` decodings. */
  function Decoded(text: Text, s: string, n: nat): string
    decreases n
  {
    if n == 0 then s else Decoded(text, Unquote(text, s), n - 1)
  }

  lemma {:induction false} DecodedFixpoint(text: Text, s: string, n: nat)
    requires Unquote(text, s) == s
    ensures Decoded(text, s, n) == s
  {
    if n > 0 {
      DecodedFixpoint(text, s, n - 1);
    }
  }

  lemma {:induction false} CleanThroughout(text: Text, s: string, n: nat, k: nat)
    requires Sound(text) && k <= n && Clean(Decoded(text, s, n))
    ensures Clean(Decoded(text, s, k))
    decreases n
  {
    if k > 0 {
      CleanThroughout(text, Unquote(text, s), n - 1, k - 1);
    } else if n > 0 {
      CleanThroughout(text, Unquote(text, s), n - 1, 0);
      CleanBefore(text, s);
    }
  }

  /** `urlsplit`: `None` when it raises. */
  datatype Parts = Parts(scheme: string, netloc: string, path: string)

  function StripSlashes(s: string): (r: string)
    ensures r <= s && (r == [] || r[|r| - 1] != '/') && forall i | |r| <= i < |s| :: s[i] == '/'
  {
    if s != [] && s[|s| - 1] == '/' then StripSlashes(s[..|s| - 1]) else s
  }

  predicate SameOrigin(text: Text, candidate: Parts, scope: Parts) {
    && text.lower(candidate.scheme) in {"http", "https"}
    && text.lower(candidate.scheme) == text.lower(scope.scheme)
    && text.lower(candidate.netloc) == text.lower(scope.netloc)
  }

  function Root(text: Text, scope: Parts): string {
    StripSlashes(Unquote(text, scope.path))
  }

  predicate InScope(text: Text, candidate: Parts, scope: Parts) {
    && SameOrigin(text, candidate, scope)
    && Clean(Decoded(text, candidate.path, 3)) && Clean(Decoded(text, scope.path, 3))
    && (Unquote(text, candidate.path) == Root(text, scope) || Root(text, scope) + "/" <= Unquote(text, candidate.path))
  }

  /** The path that the traversal checks look at. */
  method LastDecoding(text: Text, raw: string) returns (path: string)
    ensures path == Decoded(text, raw, 3)
  {
    path := raw;
    var left := 3;
    while left > 0
      invariant 0 <= left <= 3 && Decoded(text, path, left) == Decoded(text, raw, 3)
    {
      var decoded := Unquote(text, path);
      if decoded == path {
        DecodedFixpoint(text, path, left);
        return;
      }
      path := decoded;
      left := left - 1;
    }
  }

  /** `_relative_url_path`: defined exactly in scope, and then the rest of the
      once-decoded path below the once-decoded root. */
  method RelativeUrlPath(text: Text, candidate: Option<Parts>, scope: Option<Parts>) returns (relative: Option<string>)
    ensures relative.Some? <==> candidate.Some? && scope.Some? && InScope(text, candidate.value, scope.value)
    ensures relative.Some? ==> Locates(text, candidate.value, scope.value, relative.value)
  {
    hide Unquote, Decoded, Split;
    if candidate.None? || scope.None? {
      return None;
    }
    var url, base := candidate.value, scope.value;
    if !SameOrigin(text, url, base) {
      return None;
    }
    var paths := [url.path, base.path];
    for i := 0 to 2
      invariant forall k | 0 <= k < i :: Clean(Decoded(text, paths[k], 3))
    {
      var path := LastDecoding(text, paths[i]);
      if !Clean(path) {
        return None;
      }
    }
    assert Clean(Decoded(text, paths[0], 3)) && Clean(Decoded(text, paths[1], 3));
    var scoped, root := Unquote(text, url.path), Root(text, base);
    if scoped == root {
      return Some("");
    }
    if root + "/" <= scoped {
      assert scoped == root + "/" + scoped[|root| + 1..];
      return Some(scoped[|root| + 1..]);
    }
    return None;
  }

  /** `relative` names the candidate below the scope's root. */
  predicate Locates(text: Text, candidate: Parts, scope: Parts, relative: string) {
    var scoped, root := Unquote(text, candidate.path), Root(text, scope);
    (scoped == root && relative == "") || scoped == root + "/" + relative
  }

  lemma {:induction false} DecodedNext(text: Text, s: string, k: nat)
    ensures Decoded(text, s, k + 1) == Unquote(text, Decoded(text, s, k))
    decreases k
  {
    if k > 0 {
      DecodedNext(text, Unquote(text, s), k - 1);
    }
  }

  /** The bytes of "." and "..". */
  predicate DotBytes(bytes: seq<Byte>) {
    bytes == [46] || bytes == [46, 46]
  }

  lemma DotsInUtf8(text: Text, bytes: seq<Byte>)
    requires Sound(text) && DotBytes(bytes)
    ensures Dots(text.utf8(bytes))
  {
    assert SplitsAt(text, [], '.', []) && SplitsAt(text, [46], '.', []);
    assert [] + [46] + [] == [46] && [46] + [46] + [] == [46, 46];
  }

  /** However its characters are spelled, a dot component decodes to one. */
  lemma SpelledDotsTraverse(text: Text, a: string, dots: string, rest: string, bytes: seq<Byte>)
    requires Sound(text) && DotBytes(bytes) && Spells(dots, bytes) && (rest == "" || rest[0] == '/')
    ensures Traverses(Unquote(text, a + "/" + dots + rest))
  {
    hide Unquote, Split, Spells;
    var part := text.utf8(bytes);
    UnquoteIsTheSpelled(text, dots, bytes);
    DotsInUtf8(text, bytes);
    SplitWhole(part);
    UnquoteSplits(text, a, '/', dots + rest);
    assert a + "/" + dots + rest == a + "/" + (dots + rest);
    SplitAtSlash(Unquote(text, a), Unquote(text, dots + rest));
    if rest == "" {
      assert dots + rest == dots;
    } else {
      UnquoteSplits(text, dots, '/', rest[1..]);
      assert dots + rest == dots + "/" + rest[1..];
      SplitAtSlash(part, Unquote(text, rest[1..]));
    }
  }

  /** A path with a component that spells "." or ".." is rejected, in any spelling,
      and also when that spelling only comes out of the first or second decoding. */
  lemma SpelledDotsAreRejected(text: Text, candidate: Parts, scope: Parts, k: nat,
                               a: string, dots: string, rest: string, bytes: seq<Byte>)
    requires Sound(text) && k <= 2 && DotBytes(bytes) && Spells(dots, bytes) && (rest == "" || rest[0] == '/')
    requires Decoded(text, candidate.path, k) == a + "/" + dots + rest
    ensures !InScope(text, candidate, scope)
  {
    SpelledDotsTraverse(text, a, dots, rest, bytes);
    DecodedNext(text, candidate.path, k);
    if Clean(Decoded(text, candidate.path, 3)) {
      CleanThroughout(text, candidate.path, 3, k + 1);
    }
  }

  lemma {:induction false} NoEscapesDecode(s: string)
    requires AllAscii(s) && '%' !in s
    ensures |Bytes(s)| == |s| && forall i | 0 <= i < |s| :: Bytes(s)[i] == s[i] as int
  {
    if s != [] {
      NoEscapesDecode(s[1..]);
    }
  }

  lemma {:induction false} AsciiInUtf8(text: Text, s: string, bytes: seq<Byte>)
    requires Sound(text) && AllAscii(s) && |bytes| == |s| && forall i | 0 <= i < |s| :: bytes[i] == s[i] as int
    ensures text.utf8(bytes) == s
    decreases |s|
  {
    if s != [] {
      AsciiInUtf8(text, s[1..], bytes[1..]);
      assert SplitsAt(text, [], s[0], bytes[1..]);
      assert [] + [s[0] as int] + bytes[1..] == bytes;
      assert [] + [s[0]] + s[1..] == s;
    }
  }

  /** Text without "%" decodes to itself. */
  lemma {:induction false} NoPercentStays(text: Text, s: string)
    requires Sound(text) && '%' !in s
    ensures Unquote(text, s) == s
    decreases |s|
  {
    if s != [] {
      var n := Run(s);
      if n > 0 {
        NoEscapesDecode(s[..n]);
        AsciiInUtf8(text, s[..n], Bytes(s[..n]));
        NoPercentStays(text, s[n..]);
        assert s == s[..n] + s[n..];
      } else {
        NoPercentStays(text, s[1..]);
      }
    }
  }

  /** What a path that spells these bytes is decoded to, however often. */
  lemma SpelledOnceDecodesOnce(text: Text, path: string, bytes: seq<Byte>)
    requires Sound(text) && Spells(path, bytes) && '%' !in text.utf8(bytes)
    ensures Unquote(text, path) == Decoded(text, path, 3) == text.utf8(bytes)
  {
    UnquoteIsTheSpelled(text, path, bytes);
    NoPercentStays(text, text.utf8(bytes));
    DecodedFixpoint(text, text.utf8(bytes), 2);
  }

  lemma AboveIsClean(root: string, name: string)
    requires Clean(root + "/" + name)
    ensures Clean(root) && Clean(root + "/")
  {
    hide Split;
    SplitAtSlash(root, name);
    SplitAtSlash(root, "");
    SplitWhole("");
    assert root + "/" + "" == root + "/";
    var s := root + "/" + name;
    assert forall i | 0 <= i < |root| :: root[i] == s[i];
    forall part | part in Split(root) ensures !Dots(part) {
      assert part in Split(s);
    }
  }

  lemma SlashStripped(root: string)
    requires root == "" || root[|root| - 1] != '/'
    ensures StripSlashes(root) == root && StripSlashes(root + "/") == root
  {
    assert (root + "/")[..|root|] == root;
  }

  /** A URL whose path spells a name without traversal below the scope's root is accepted
      exactly when it has the scope's origin, and then that name is its relative path,
      however both are spelled and whether or not the scope ends with a slash. */
  lemma SpelledPathIsAccepted(text: Text, candidate: Parts, scope: Parts, bytes: seq<Byte>, above: seq<Byte>,
                              root: string, name: string)
    requires Sound(text) && Spells(candidate.path, bytes) && Spells(scope.path, above)
    requires text.utf8(bytes) == root + "/" + name
    requires text.utf8(above) == root || text.utf8(above) == root + "/"
    requires root == "" || root[|root| - 1] != '/'
    requires '%' !in root + "/" + name && Clean(root + "/" + name)
    ensures InScope(text, candidate, scope) <==>
            && (text.lower(candidate.scheme) == "http" || text.lower(candidate.scheme) == "https")
            && text.lower(candidate.scheme) == text.lower(scope.scheme)
            && text.lower(candidate.netloc) == text.lower(scope.netloc)
    ensures forall relative | Locates(text, candidate, scope, relative) :: relative == name
  {
    hide Unquote, Decoded, Spells, Clean, StripSlashes;
    var full := root + "/" + name;
    AboveIsClean(root, name);
    SlashStripped(root);
    assert forall i | 0 <= i < |root| :: root[i] == full[i];
    SpelledOnceDecodesOnce(text, candidate.path, bytes);
    SpelledOnceDecodesOnce(text, scope.path, above);
    forall relative | Locates(text, candidate, scope, relative) ensures relative == name {
      assert relative == full[|root| + 1..] == name;
    }
  }

  // ------------------------------------------------------------------- theorems

  /** Where a filesystem ends up from a directory: empty and "." components stay,
      ".." goes up. */
  function Resolve(at: seq<string>, parts: seq<string>): seq<string>
    decreases |parts|
  {
    if parts == [] then at else
    var part := parts[0];
    var next := if part == "" || part == "." then at
                else if part == ".." then (if at == [] then [] else at[..|at| - 1])
                else at + [part];
    Resolve(next, parts[1..])
  }

  lemma {:induction false} ResolveStaysBelow(at: seq<string>, parts: seq<string>)
    requires forall part | part in parts :: !Dots(part)
    ensures at <= Resolve(at, parts)
    decreases |parts|
  {
    if parts != [] {
      assert parts[0] in parts;
      ResolveStaysBelow(if parts[0] == "" then at else at + [parts[0]], parts[1..]);
    }
  }

  lemma {:induction false} ResolveConcat(at: seq<string>, a: seq<string>, b: seq<string>)
    ensures Resolve(at, a + b) == Resolve(Resolve(at, a), b)
    decreases |a|
  {
    if a == [] {
      assert a + b == b;
    } else {
      assert (a + b)[0] == a[0] && (a + b)[1..] == a[1..] + b;
      var next := if a[0] == "" || a[0] == "." then at
                  else if a[0] == ".." then (if at == [] then [] else at[..|at| - 1])
                  else at + [a[0]];
      ResolveConcat(next, a[1..], b);
    }
  }

  /** An accepted URL's once-decoded path is clean, and lies below the decoded
      root by whole components. */
  lemma AcceptedIsClean(text: Text, candidate: Parts, scope: Parts, relative: string)
    requires Sound(text) && InScope(text, candidate, scope) && Locates(text, candidate, scope, relative)
    ensures var scoped, root := Unquote(text, candidate.path), Root(text, scope);
            && Clean(scoped) && Clean(root) && Clean(relative)
            && (scoped == root || Split(scoped) == Split(root) + Split(relative))
  {
    hide Unquote, Split;
    CleanThroughout(text, candidate.path, 3, 1);
    CleanThroughout(text, scope.path, 3, 1);
    assert Decoded(text, candidate.path, 1) == Unquote(text, candidate.path);
    assert Decoded(text, scope.path, 1) == Unquote(text, scope.path);
    var scoped, root := Unquote(text, candidate.path), Root(text, scope);
    StrippedIsClean(Unquote(text, scope.path));
    assert |root| < |root + "/" + relative|;
    if scoped != root {
      SplitAtSlash(root, relative);
      BelowIsClean(root, relative);
    } else {
      EmptyIsClean();
    }
  }

  lemma EmptyIsClean()
    ensures Clean("")
  {
    assert Split("") == [""];
  }

  lemma BelowIsClean(root: string, relative: string)
    requires Clean(root + "/" + relative)
    ensures Clean(relative)
  {
    hide Split;
    SplitAtSlash(root, relative);
    var s := root + "/" + relative;
    assert forall i | 0 <= i < |relative| :: relative[i] == s[|root| + 1 + i];
    forall part | part in Split(relative) ensures !Dots(part) {
      assert part in Split(s);
    }
  }

  lemma {:induction false} StrippedIsClean(s: string)
    requires Clean(s)
    ensures Clean(StripSlashes(s))
    decreases |s|
  {
    if s != [] && s[|s| - 1] == '/' {
      var t := s[..|s| - 1];
      assert s == t + "/" + "";
      SplitAtSlash(t, "");
      assert forall c | c in t :: c in s;
      forall part | part in Split(t) ensures !Dots(part) {
        assert part in Split(s);
      }
      StrippedIsClean(t);
    }
  }

  /** Written below any local directory, an accepted path stays below it, and
      below the place where the root itself would be written. */
  lemma AcceptedStaysInside(text: Text, candidate: Parts, scope: Parts, relative: string, local: seq<string>)
    requires Sound(text) && InScope(text, candidate, scope) && Locates(text, candidate, scope, relative)
    ensures local <= Resolve(local, Split(relative))
    ensures var root := Resolve(local, Split(Root(text, scope)));
            local <= root <= Resolve(local, Split(Unquote(text, candidate.path)))
  {
    hide Unquote, Split;
    AcceptedIsClean(text, candidate, scope, relative);
    ResolveStaysBelow(local, Split(relative));
    var root := Split(Root(text, scope));
    ResolveStaysBelow(local, root);
    ResolveStaysBelow(Resolve(local, root), Split(relative));
    ResolveConcat(local, root, Split(relative));
  }

  /** Repeated decoding does not merge names: URLs with the same relative path
      have the same once-decoded path, up to a slash after the root. */
  lemma RelativePathIsIdentity(text: Text, a: Parts, b: Parts, scope: Parts, relative: string)
    requires Locates(text, a, scope, relative) && Locates(text, b, scope, relative)
    ensures Unquote(text, a.path) == Unquote(text, b.path)
            || (relative == "" && StripSlashes(Unquote(text, a.path)) == StripSlashes(Unquote(text, b.path)))
  {
    hide Unquote;
    var root := Root(text, scope);
    assert StripSlashes(root) == root;
    assert (root + "/" + "")[..|root|] == root;
    assert StripSlashes(root + "/" + "") == StripSlashes(root);
  }
}
