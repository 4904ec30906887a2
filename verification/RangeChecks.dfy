/** Checks on a range response (download_integrity.py), following RFC 9110:
    section 14.4 (Content-Range), 15.3.7 (206) and 8.8.1 (strong validators). */
module RangeChecks {
  import opened Collections

  /** The parts of a response that the checks look at; an absent header is `None`. */
  datatype Response = Response(
    status: int, contentRange: Option<string>, etag: Option<string>,
    contentLength: Option<int>, contentEncoding: Option<string>)

  /** The longest run of digits at the front. */
  function DigitPrefix(s: string): (n: nat)
    ensures n <= |s| && AllDigits(s[..n])
    ensures n < |s| ==> !IsDigit(s[n])
  {
    if s == [] || !IsDigit(s[0]) then 0 else
      assert s[..1 + DigitPrefix(s[1..])] == [s[0]] + s[1..][..DigitPrefix(s[1..])];
      1 + DigitPrefix(s[1..])
  }

  /** `int` of a nonempty string of digits. */
  function Value(s: string): nat
    requires AllDigits(s)
  {
    if s == [] then 0 else
      assert IsDigit(s[|s| - 1]);
      10 * Value(s[..|s| - 1]) + (s[|s| - 1] as int - '0' as int)
  }

  /** The number at the front of `s` and what follows it; `None` without digits. */
  function ReadNumber(s: string): Option<(nat, string)> {
    var n := DigitPrefix(s);
    if n == 0 then None else Some((Value(s[..n]), s[n..]))
  }

  function ReadMark(s: string, mark: char): Option<string> {
    if s != [] && s[0] == mark then Some(s[1..]) else None
  }

  /** `bytes (\d+)-(\d+)/(\d+)`, matched against the whole header. */
  function ParseContentRange(s: string): Option<(nat, nat, nat)> {
    if !("bytes " <= s) then None else
    var a := ReadNumber(s[6..]);
    if a.None? then None else
    var ra := ReadMark(a.value.1, '-');
    if ra.None? then None else
    var b := ReadNumber(ra.value);
    if b.None? then None else
    var rb := ReadMark(b.value.1, '/');
    if rb.None? then None else
    var c := ReadNumber(rb.value);
    if c.None? || c.value.1 != [] then None else Some((a.value.0, b.value.0, c.value.0))
  }

  /** A number as servers write it. */
  function Decimal(n: nat): (s: string)
    ensures s != [] && AllDigits(s) && Value(s) == n
  {
    var digit := ['0' + (n % 10) as char];
    if n < 10 then digit else
      var s := Decimal(n / 10) + digit;
      assert s[..|s| - 1] == Decimal(n / 10);
      s
  }

  function FormatContentRange(start: nat, end: nat, total: nat): string {
    "bytes " + Decimal(start) + "-" + Decimal(end) + "/" + Decimal(total)
  }

  lemma {:induction false} DigitPrefixOfNumber(digits: string, rest: string)
    requires AllDigits(digits) && (rest != [] ==> !IsDigit(rest[0]))
    ensures DigitPrefix(digits + rest) == |digits|
    decreases |digits|
  {
    if digits == [] {
      assert digits + rest == rest;
    } else {
      assert (digits + rest)[1..] == digits[1..] + rest;
      DigitPrefixOfNumber(digits[1..], rest);
    }
  }

  lemma ReadDigits(digits: string, rest: string)
    requires digits != [] && AllDigits(digits) && (rest != [] ==> !IsDigit(rest[0]))
    ensures ReadNumber(digits + rest) == Some((Value(digits), rest))
  {
    DigitPrefixOfNumber(digits, rest);
    assert (digits + rest)[..|digits|] == digits;
    assert (digits + rest)[|digits|..] == rest;
  }

  lemma ReadDigitsThen(digits: string, mark: char, rest: string)
    requires digits != [] && AllDigits(digits) && !IsDigit(mark)
    ensures ReadNumber(digits + ([mark] + rest)) == Some((Value(digits), [mark] + rest))
    ensures ReadMark([mark] + rest, mark) == Some(rest)
  {
    ReadDigits(digits, [mark] + rest);
  }

  /** The header is spelled with these three runs of digits. */
  predicate SpelledBy(s: string, x: string, y: string, z: string) {
    && x != [] && AllDigits(x) && y != [] && AllDigits(y) && z != [] && AllDigits(z)
    && s == "bytes " + x + "-" + y + "/" + z
  }

  lemma ParseSpelled(s: string, x: string, y: string, z: string)
    requires SpelledBy(s, x, y, z)
    ensures ParseContentRange(s) == Some((Value(x), Value(y), Value(z)))
  {
    hide AllDigits, Value, ReadNumber, ReadMark;
    var rb := y + ("/" + z);
    var ra := x + ("-" + rb);
    assert s == "bytes " + ra;
    assert s[..6] == "bytes " && s[6..] == ra;
    ReadDigitsThen(x, '-', rb);
    ReadDigitsThen(y, '/', z);
    assert z + [] == z;
    ReadDigits(z, []);
  }

  lemma ReadGives(s: string)
    ensures var n := DigitPrefix(s);
            ReadNumber(s).Some? ==>
              n > 0 && s == s[..n] + ReadNumber(s).value.1 && ReadNumber(s).value.0 == Value(s[..n])
  {}

  /** A header is accepted with three numbers exactly when it is the word, the
      three numbers in digits, and the marks between them, and nothing else. */
  lemma ParsedExactlyWhenSpelled(s: string, start: nat, end: nat, total: nat)
    ensures ParseContentRange(s) == Some((start, end, total)) <==>
            exists x, y, z :: SpelledBy(s, x, y, z) && Value(x) == start && Value(y) == end && Value(z) == total
  {
    if ParseContentRange(s) == Some((start, end, total)) {
      ParsedIsSpelled(s, start, end, total);
    }
    if x, y, z :| SpelledBy(s, x, y, z) && Value(x) == start && Value(y) == end && Value(z) == total {
      ParseSpelled(s, x, y, z);
    }
  }

  lemma ParsedIsSpelled(s: string, start: nat, end: nat, total: nat)
    requires ParseContentRange(s) == Some((start, end, total))
    ensures exists x, y, z :: SpelledBy(s, x, y, z) && Value(x) == start && Value(y) == end && Value(z) == total
  {
    hide AllDigits, Value, ReadNumber, SpelledBy;
    var ra := s[6..];
    ReadGives(ra);
    var ma := ReadNumber(ra).value.1;
    var rb := ma[1..];
    ReadGives(rb);
    var mb := ReadNumber(rb).value.1;
    var rc := mb[1..];
    ReadGives(rc);
    Assemble(s, ra[..DigitPrefix(ra)], ma, rb[..DigitPrefix(rb)], mb, rc[..DigitPrefix(rc)]);
  }

  lemma Assemble(s: string, x: string, ma: string, y: string, mb: string, z: string)
    requires x != [] && AllDigits(x) && y != [] && AllDigits(y) && z != [] && AllDigits(z)
    requires |s| >= 6 && s[..6] == "bytes " && s[6..] == x + ma
    requires ma != [] && ma[0] == '-' && ma[1..] == y + mb
    requires mb != [] && mb[0] == '/' && mb[1..] == z
    ensures SpelledBy(s, x, y, z)
  {
    hide AllDigits;
    assert s == "bytes " + (x + ma);
    assert ma == "-" + (y + mb);
    assert mb == "/" + z;
    assert "bytes " + (x + ("-" + (y + ("/" + z)))) == "bytes " + x + "-" + y + "/" + z;
  }

  /** A Content-Range written for a range is read back as that range. */
  lemma ContentRangeRoundTrip(start: nat, end: nat, total: nat)
    ensures ParseContentRange(FormatContentRange(start, end, total)) == Some((start, end, total))
  {
    hide Decimal;
    ParseSpelled(FormatContentRange(start, end, total), Decimal(start), Decimal(end), Decimal(total));
  }

  predicate IsSpace(c: char) {
    c == ' ' || '\t' <= c <= '\r' || '\U{1c}' <= c <= '\U{1f}' || c == '\U{85}' || c == '\U{a0}'
  }

  function Strip(s: string): (r: string)
    ensures r == [] || (!IsSpace(r[0]) && !IsSpace(r[|r| - 1]))
    decreases |s|
  {
    if s == [] then []
    else if IsSpace(s[0]) then Strip(s[1..])
    else if IsSpace(s[|s| - 1]) then Strip(s[..|s| - 1])
    else s
  }

  /** Characters allowed between the quotes of an entity tag. */
  predicate TagChar(c: char) {
    c == '!' || '#' <= c <= '~' || '\U{80}' <= c <= '\U{ff}'
  }

  /** `strong_etag`: the quoted tag, or nothing for a weak or malformed one. */
  function StrongEtag(etag: Option<string>): Option<string> {
    var value := if etag.Some? then Strip(etag.value) else [];
    if |value| >= 2 && value[0] == '"' && value[|value| - 1] == '"'
       && forall c | c in value[1..|value| - 1] :: TagChar(c)
    then Some(value) else None
  }

  predicate Blank(s: string) {
    forall c | c in s :: IsSpace(c)
  }

  /** A strong entity tag (RFC 9110, section 8.8.3): quoted, and between the quotes no
      control character, space, quote or character beyond one byte. */
  predicate Quoted(tag: string) {
    && |tag| >= 2 && tag[0] as int == 0x22 && tag[|tag| - 1] as int == 0x22
    && forall i | 1 <= i < |tag| - 1 ::
         tag[i] as int == 0x21 || 0x23 <= tag[i] as int <= 0x7e || 0x80 <= tag[i] as int <= 0xff
  }

  lemma {:induction false} StripParts(s: string) returns (before: string, after: string)
    ensures s == before + Strip(s) + after && Blank(before) && Blank(after)
    decreases |s|
  {
    before, after := [], [];
    if s != [] {
      if IsSpace(s[0]) {
        before, after := StripParts(s[1..]);
        before := [s[0]] + before;
      } else if IsSpace(s[|s| - 1]) {
        before, after := StripParts(s[..|s| - 1]);
        assert s == before + Strip(s) + (after + [s[|s| - 1]]);
        after := after + [s[|s| - 1]];
      }
    }
  }

  lemma {:induction false} StripUndoes(before: string, core: string, after: string)
    requires Blank(before) && Blank(after) && core != [] && !IsSpace(core[0]) && !IsSpace(core[|core| - 1])
    ensures Strip(before + core + after) == core
    decreases |before| + |after|
  {
    var s := before + core + after;
    if before != [] {
      assert s[0] == before[0] && s[1..] == before[1..] + core + after;
      StripUndoes(before[1..], core, after);
    } else if after != [] {
      assert s[0] == core[0] && s[|s| - 1] == after[|after| - 1];
      assert s[..|s| - 1] == before + core + after[..|after| - 1];
      StripUndoes(before, core, after[..|after| - 1]);
    } else {
      assert s == core;
    }
  }

  /** A header gives a strong tag exactly when it is that tag, quoted, between blanks. */
  lemma StrongExactlyWhenQuoted(header: string, tag: string)
    ensures StrongEtag(Some(header)) == Some(tag) <==>
            Quoted(tag) && exists before, after :: header == before + tag + after && Blank(before) && Blank(after)
  {
    TagIsQuoted(Strip(header));
    if StrongEtag(Some(header)) == Some(tag) {
      var before, after := StripParts(header);
    }
    hide StrongEtag, Quoted;
    if before, after :| Quoted(tag) && header == before + tag + after && Blank(before) && Blank(after) {
      QuotesAreNoSpace(tag);
      StripUndoes(before, tag, after);
      TagIsQuoted(tag);
    }
  }

  lemma QuotesAreNoSpace(tag: string)
    requires Quoted(tag)
    ensures tag != [] && !IsSpace(tag[0]) && !IsSpace(tag[|tag| - 1])
  {}

  lemma TagIsQuoted(value: string)
    ensures forall header | Strip(header) == value ::
              StrongEtag(Some(header)) == if Quoted(value) then Some(value) else None
  {
    if |value| >= 2 {
      var inner := value[1..|value| - 1];
      if forall c | c in inner :: TagChar(c) {
        forall i | 1 <= i < |value| - 1 ensures TagChar(value[i]) {
          assert value[i] == inner[i - 1];
        }
      }
    }
  }

  /** A weak validator is never accepted for a range transfer. */
  lemma WeakEtagIsRejected(tag: string)
    ensures StrongEtag(Some("W/" + tag)) == None
  {
    WeakSurvivesStrip("W/" + tag);
  }

  lemma {:induction false} WeakSurvivesStrip(s: string)
    requires |s| >= 2 && s[0] == 'W' && s[1] == '/'
    ensures |Strip(s)| >= 2 && Strip(s)[0] == 'W' && Strip(s)[1] == '/'
    decreases |s|
  {
    if IsSpace(s[|s| - 1]) {
      WeakSurvivesStrip(s[..|s| - 1]);
    }
  }

  function Lower(c: char): char {
    if 'A' <= c <= 'Z' then c - 'A' + 'a' else c
  }

  predicate IsIdentity(encoding: Option<string>) {
    encoding.None? || (|encoding.value| == 8 && forall i | 0 <= i < 8 :: Lower(encoding.value[i]) == "identity"[i])
  }

  /** `validate_range`: true when no exception is raised. */
  predicate ValidRange(r: Response, start: int, end: int, total: int, etag: string) {
    var header := if r.contentRange.Some? then r.contentRange.value else "";
    var parsed := ParseContentRange(header);
    && r.status == 206 && parsed.Some?
    && parsed.value.0 == start && parsed.value.1 == end && parsed.value.2 == total
    && StrongEtag(r.etag) == Some(etag)
    && (r.contentLength.None? || (r.contentLength.value >= 0 && r.contentLength.value == end - start + 1))
    && IsIdentity(r.contentEncoding)
  }

  /** A 206 answer for exactly the requested bytes of the same representation is accepted. */
  lemma ExactAnswerIsAccepted(start: nat, end: nat, total: nat, etag: string)
    requires start <= end && Quoted(etag)
    ensures ValidRange(Response(206, Some(FormatContentRange(start, end, total)), Some(etag), Some(end - start + 1),
              None),
                       start, end, total, etag)
  {
    ContentRangeRoundTrip(start, end, total);
    StrongExactlyWhenQuoted(etag, etag);
    assert etag == "" + etag + "";
  }

  /** An answer is accepted for a range exactly when it is a 206 whose header
      spells that range and total, with the strong tag asked for, and whose other
      headers do not contradict it. */
  lemma ValidExactlyWhenSpelled(r: Response, start: int, end: int, total: int, etag: string)
    ensures ValidRange(r, start, end, total, etag) <==>
            && r.status == 206 && r.contentRange.Some?
            && (exists x, y, z :: SpelledBy(r.contentRange.value, x, y, z)
                                  && Value(x) == start && Value(y) == end && Value(z) == total)
            && StrongEtag(r.etag) == Some(etag)
            && (r.contentLength.None? || (r.contentLength.value >= 0 && r.contentLength.value == end - start + 1))
            && IsIdentity(r.contentEncoding)
  {
    var header := if r.contentRange.Some? then r.contentRange.value else "";
    hide ParseContentRange, SpelledBy, Value, StrongEtag, IsIdentity;
    EmptyIsNoRange();
    if start >= 0 && end >= 0 && total >= 0 {
      ParsedExactlyWhenSpelled(header, start, end, total);
    }
  }

  lemma EmptyIsNoRange()
    ensures ParseContentRange("") == None
  {}

  /** One answer never validates for two different ranges, totals or representations. */
  lemma AnswerFitsOneRequest(r: Response, start: int, end: int, total: int, etag: string,
                             start': int, end': int, total': int, etag': string)
    requires ValidRange(r, start, end, total, etag) && ValidRange(r, start', end', total', etag')
    ensures start == start' && end == end' && total == total' && etag == etag'
  {}
}
