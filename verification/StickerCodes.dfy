/** The number printed on a sticker, and reading it back as typed by a person. */
module StickerCodes {
  import opened Decimal
  import opened Options

  const MAX_INT64 := 0x7fff_ffff_ffff_ffff

  // ----- the string operations -----

  predicate IsSpace(c: char) {
    || '\t' <= c <= '\r' || c == ' ' || c == '\U{85}' || c == '\U{A0}' || c == '\U{1680}' || '\U{2000}' <= c <= '\U{200A}'
    || c == '\U{2028}' || c == '\U{2029}' || c == '\U{202F}' || c == '\U{205F}' || c == '\U{3000}'
  }

  predicate IsFiller(c: char) {
    c == '-' || c == ' '
  }

  ghost predicate All(p: char -> bool, s: string) {
    forall i :: 0 <= i < |s| ==> p(s[i])
  }

  function TrimLeft(p: char -> bool, s: string): (r: string)
    ensures |r| <= |s| && r == s[|s| - |r|..]
    ensures All(p, s[..|s| - |r|])
    ensures r == "" || !p(r[0])
  {
    if s != "" && p(s[0]) then TrimLeft(p, s[1..]) else s
  }

  function TrimRight(p: char -> bool, s: string): (r: string)
    ensures r <= s && All(p, s[|r|..])
    ensures r == "" || !p(r[|r| - 1])
  {
    if s != "" && p(s[|s| - 1]) then TrimRight(p, s[..|s| - 1]) else s
  }

  function TrimSpace(s: string): string {
    TrimRight(IsSpace, TrimLeft(IsSpace, s))
  }

  function UpperChar(c: char): char {
    if 'a' <= c <= 'z' then c - 'a' + 'A' else c
  }

  function ToUpper(s: string): string {
    seq(|s|, i requires 0 <= i < |s| => UpperChar(s[i]))
  }

  function TrimPrefix(s: string, prefix: string): string {
    if prefix <= s then s[|prefix|..] else s
  }

  /** A decimal integer with an optional sign, if it fits 64 bits. */
  function ParseInt(s: string): Option<int> {
    if s == "" then None
    else
      var digits := if s[0] == '+' || s[0] == '-' then s[1..] else s;
      if digits == "" || !AllDigits(digits) then None
      else if s[0] == '-' then if Value(digits) > MAX_INT64 + 1 then None else Some(-(Value(digits) as int))
      else if Value(digits) > MAX_INT64 then None
      else Some(Value(digits))
  }

  // ----- the printer and the parser -----

  function ZeroPad(s: string, width: nat): string {
    if |s| < width then Zeros(width - |s|) + s else s
  }

  /** A sign counts towards the width of four, and the zeros follow it. */
  function Code(number: int): string {
    "QW-" + if number >= 0 then ZeroPad(Itoa(number), 4) else "-" + ZeroPad(Itoa(-number), 3)
  }

  function StripPrefixes(s: string): string {
    TrimLeft(IsFiller, TrimPrefix(TrimPrefix(s, "QW-"), "QW"))
  }

  function ParseCode(code: string): Option<int> {
    ParseInt(StripPrefixes(ToUpper(TrimSpace(code))))
  }

  // ----- what the parser accepts -----

  /** What may stand before the number, upper-cased. The parser strips the longer prefix
      once and the shorter one after it. */
  predicate IsPrefix(s: string) {
    s == "" || s == "QW" || s == "QW-" || s == "QW-QW"
  }

  /** The parts of a code as a person may type it. */
  datatype Spelling = Spelling(lead: string, prefix: string, filler: string, plus: bool, digits: string, trail: string) {

    function Sign(): string {
      if plus then "+" else ""
    }

    function Core(): string {
      prefix + filler + Sign() + digits
    }

    function Text(): string {
      lead + Core() + trail
    }

    ghost predicate Valid() {
      && All(IsSpace, lead) && All(IsSpace, trail)
      && IsPrefix(ToUpper(prefix))
      && All(IsFiller, filler) && (prefix == "" && filler != "" ==> filler[0] == '-')
      && digits != "" && AllDigits(digits)
    }
  }

  ghost predicate Spells(code: string, number: int) {
    exists p: Spelling :: p.Valid() && p.Text() == code && Value(p.digits) == number
  }

  lemma {:induction false} TrimLeftOf(p: char -> bool, lead: string, rest: string)
    requires All(p, lead) && (rest == "" || !p(rest[0]))
    ensures TrimLeft(p, lead + rest) == rest
  {
    if lead == "" {
      assert lead + rest == rest;
    } else {
      assert (lead + rest)[1..] == lead[1..] + rest;
      TrimLeftOf(p, lead[1..], rest);
    }
  }

  lemma {:induction false} TrimRightOf(p: char -> bool, rest: string, trail: string)
    requires All(p, trail) && (rest == "" || !p(rest[|rest| - 1]))
    ensures TrimRight(p, rest + trail) == rest
  {
    if trail == "" {
      assert rest + trail == rest;
    } else {
      var n := |trail| - 1;
      assert (rest + trail)[..|rest| + n] == rest + trail[..n];
      TrimRightOf(p, rest, trail[..n]);
    }
  }

  lemma UpperAppend(a: string, b: string)
    ensures ToUpper(a + b) == ToUpper(a) + ToUpper(b)
  {
  }

  lemma PrefixOff(prefix: string, rest: string)
    ensures TrimPrefix(prefix + rest, prefix) == rest
  {
  }

  lemma PrefixStays(s: string, prefix: string, i: nat)
    requires i < |prefix| && (i < |s| ==> s[i] != prefix[i])
    ensures TrimPrefix(s, prefix) == s
  {
  }

  predicate Bodied(rest: string) {
    rest != "" && (rest[0] == '+' || IsDigit(rest[0]))
  }

  lemma FillerOff(filler: string, body: string)
    requires All(IsFiller, filler) && Bodied(body)
    ensures TrimLeft(IsFiller, filler + body) == body
    ensures TrimPrefix(filler + body, "QW") == TrimPrefix(filler + body, "QW-") == filler + body
  {
    TrimLeftOf(IsFiller, filler, body);
    assert filler + body != "" && (filler + body)[0] != 'Q';
    PrefixStays(filler + body, "QW", 0);
    PrefixStays(filler + body, "QW-", 0);
  }

  lemma NoPrefix(filler: string, body: string)
    requires All(IsFiller, filler) && Bodied(body)
    ensures StripPrefixes(filler + body) == body
  {
    FillerOff(filler, body);
  }

  lemma DashedPrefix(filler: string, body: string)
    requires All(IsFiller, filler) && Bodied(body)
    ensures StripPrefixes("QW-" + (filler + body)) == body
  {
    FillerOff(filler, body);
    PrefixOff("QW-", filler + body);
  }

  lemma DoublePrefix(filler: string, body: string)
    requires All(IsFiller, filler) && Bodied(body)
    ensures StripPrefixes("QW-" + ("QW" + (filler + body))) == body
  {
    FillerOff(filler, body);
    PrefixOff("QW-", "QW" + (filler + body));
    PrefixOff("QW", filler + body);
  }

  lemma PlainPrefix(filler: string, body: string)
    requires All(IsFiller, filler) && Bodied(body)
    ensures StripPrefixes("QW" + (filler + body)) == body
  {
    var rest := filler + body;
    if rest[0] == '-' {
      assert filler[1..] + body == rest[1..];
      assert "QW" + rest == "QW-" + (filler[1..] + body);
      DashedPrefix(filler[1..], body);
    } else {
      FillerOff(filler, body);
      assert ("QW" + rest)[2] == rest[0];
      PrefixStays("QW" + rest, "QW-", 2);
      PrefixOff("QW", rest);
    }
  }

  lemma PrefixesOff(prefix: string, filler: string, body: string)
    requires IsPrefix(prefix) && All(IsFiller, filler) && Bodied(body)
    ensures StripPrefixes(prefix + (filler + body)) == body
  {
    if prefix == "" {
      assert prefix + (filler + body) == filler + body;
      NoPrefix(filler, body);
    } else if prefix == "QW" {
      PlainPrefix(filler, body);
    } else if prefix == "QW-" {
      DashedPrefix(filler, body);
    } else {
      assert prefix + (filler + body) == "QW-" + ("QW" + (filler + body));
      DoublePrefix(filler, body);
    }
  }

  lemma CoreStart(p: Spelling)
    requires p.Valid()
    ensures !IsSpace(p.Core()[0])
  {
    var c := p.Core()[0];
    if p.prefix != "" {
      assert c == p.prefix[0] && UpperChar(c) == ToUpper(p.prefix)[0];
      assert UpperChar(c) == 'Q';
    } else if p.filler != "" {
      assert c == p.filler[0];
    } else if !p.plus {
      assert c == p.digits[0];
    }
  }

  lemma CoreEnd(p: Spelling)
    requires p.Valid()
    ensures !IsSpace(p.Core()[|p.Core()| - 1])
  {
    var core := p.Core();
    assert core[|core| - 1] == p.digits[|p.digits| - 1];
  }

  lemma TrimBoth(lead: string, core: string, trail: string)
    requires All(IsSpace, lead) && All(IsSpace, trail)
    requires core != "" && !IsSpace(core[0]) && !IsSpace(core[|core| - 1])
    ensures TrimSpace(lead + core + trail) == core
  {
    assert lead + core + trail == lead + (core + trail);
    TrimLeftOf(IsSpace, lead, core + trail);
    TrimRightOf(IsSpace, core, trail);
  }

  lemma CoreSurvives(p: Spelling)
    requires p.Valid()
    ensures TrimSpace(p.Text()) == p.Core()
  {
    CoreStart(p);
    CoreEnd(p);
    TrimBoth(p.lead, p.Core(), p.trail);
  }

  lemma UpperOfCore(p: Spelling)
    requires p.Valid()
    ensures ToUpper(p.Core()) == ToUpper(p.prefix) + (p.filler + (p.Sign() + p.digits))
  {
    var rest := p.filler + (p.Sign() + p.digits);
    assert p.Core() == p.prefix + rest;
    assert ToUpper(p.filler) == p.filler && ToUpper(p.Sign()) == p.Sign() && ToUpper(p.digits) == p.digits;
    UpperAppend(p.Sign(), p.digits);
    UpperAppend(p.filler, p.Sign() + p.digits);
    UpperAppend(p.prefix, rest);
  }

  lemma ParseUnsigned(digits: string)
    requires digits != "" && AllDigits(digits)
    ensures Bodied(digits) && ParseInt(digits) == if Value(digits) <= MAX_INT64 then Some(Value(digits)) else None
  {
    assert IsDigit(digits[0]);
  }

  lemma ParsePlus(body: string)
    requires |body| > 1 && body[0] == '+' && AllDigits(body[1..])
    ensures Bodied(body) && ParseInt(body) == if Value(body[1..]) <= MAX_INT64 then Some(Value(body[1..])) else None
  {
  }

  lemma ParseIntOf(plus: bool, digits: string)
    requires digits != "" && AllDigits(digits)
    ensures var body := (if plus then "+" else "") + digits;
            Bodied(body) && ParseInt(body) == if Value(digits) <= MAX_INT64 then Some(Value(digits)) else None
  {
    if plus {
      assert ("+" + digits)[1..] == digits;
      ParsePlus("+" + digits);
    } else {
      assert "" + digits == digits;
      ParseUnsigned(digits);
    }
  }

  /** Whatever the spelling, its digits are read. */
  lemma SpelledIsParsed(p: Spelling)
    requires p.Valid()
    ensures ParseCode(p.Text()) == if Value(p.digits) <= MAX_INT64 then Some(Value(p.digits)) else None
  {
    CoreSurvives(p);
    UpperOfCore(p);
    ParseIntOf(p.plus, p.digits);
    PrefixesOff(ToUpper(p.prefix), p.filler, p.Sign() + p.digits);
  }

  lemma PrefixSplit(s: string, prefix: string) returns (cut: string)
    ensures s == cut + TrimPrefix(s, prefix) && (cut == "" || cut == prefix)
  {
    cut := if prefix <= s then prefix else "";
  }

  lemma LeftSplit(p: char -> bool, s: string) returns (lead: string)
    ensures s == lead + TrimLeft(p, s) && All(p, lead)
  {
    lead := s[..|s| - |TrimLeft(p, s)|];
  }

  lemma RightSplit(p: char -> bool, s: string) returns (trail: string)
    ensures s == TrimRight(p, s) + trail && All(p, trail)
  {
    trail := s[|TrimRight(p, s)|..];
  }

  lemma BothPrefixes(first: string, second: string)
    requires (first == "" || first == "QW-") && (second == "" || second == "QW")
    ensures IsPrefix(first + second)
  {
    if first == "" {
      assert first + second == second;
    } else if second == "" {
      assert first + second == first;
    }
  }

  lemma TwoPrefixes(s: string, a: string, b: string) returns (first: string, second: string)
    ensures s == (first + second) + TrimPrefix(TrimPrefix(s, a), b)
    ensures (first == "" || first == a) && (second == "" || second == b)
  {
    first := PrefixSplit(s, a);
    second := PrefixSplit(TrimPrefix(s, a), b);
  }

  /** What StripPrefixes removes is a known prefix and filler. */
  lemma StripSplit(s: string) returns (prefix: string, filler: string)
    ensures s == prefix + (filler + StripPrefixes(s))
    ensures IsPrefix(prefix) && All(IsFiller, filler)
  {
    var first, second := TwoPrefixes(s, "QW-", "QW");
    BothPrefixes(first, second);
    prefix := first + second;
    filler := LeftSplit(IsFiller, TrimPrefix(TrimPrefix(s, "QW-"), "QW"));
  }

  predicate Caseless(c: char) {
    IsFiller(c) || c == '+' || IsDigit(c)
  }

  lemma UpperKeeps(s: string)
    requires All(Caseless, ToUpper(s))
    ensures ToUpper(s) == s
  {
    forall i | 0 <= i < |s| ensures ToUpper(s)[i] == s[i] {
      assert Caseless(ToUpper(s)[i]);
    }
  }

  lemma ParsedBody(body: string)
    requires ParseInt(body).Some? && body[0] != '-'
    ensures var plus := body[0] == '+';
            var digits := if plus then body[1..] else body;
            && digits != "" && AllDigits(digits) && Value(digits) == ParseInt(body).value <= MAX_INT64
            && body == (if plus then "+" else "") + digits
            && All(Caseless, body)
  {
    var digits := if body[0] == '+' then body[1..] else body;
    forall i | 0 <= i < |body| ensures Caseless(body[i]) {
      assert i > 0 || body[0] != '+' ==> IsDigit(digits[if body[0] == '+' then i - 1 else i]);
    }
  }

  lemma SpacesAround(code: string) returns (lead: string, trail: string)
    ensures code == lead + (TrimSpace(code) + trail) && All(IsSpace, lead) && All(IsSpace, trail)
    ensures TrimSpace(code) == "" || !IsSpace(TrimSpace(code)[0])
  {
    lead := LeftSplit(IsSpace, code);
    var left := TrimLeft(IsSpace, code);
    trail := RightSplit(IsSpace, left);
    assert TrimSpace(code) != "" ==> TrimSpace(code)[0] == left[0];
  }

  /** Undoes ToUpper piece by piece. */
  lemma Uncased(core: string, a: string, b: string)
    requires ToUpper(core) == a + b && All(Caseless, b)
    ensures ToUpper(core[..|a|]) == a && core == core[..|a|] + b
  {
    var x, y := core[..|a|], core[|a|..];
    assert core == x + y;
    UpperAppend(x, y);
    assert ToUpper(x) == (a + b)[..|a|] && ToUpper(y) == (a + b)[|a|..];
    UpperKeeps(y);
  }

  /** The parts found in the upper-cased core are parts of the core itself. */
  lemma PartsOfCore(core: string, upper: string, filler: string, body: string)
    requires ToUpper(core) == upper + (filler + body) && All(IsFiller, filler) && All(Caseless, body)
    ensures ToUpper(core[..|upper|]) == upper && core == core[..|upper|] + (filler + body)
    ensures upper == "" && filler != "" ==> filler[0] == core[0]
  {
    Uncased(core, upper, filler + body);
  }

  lemma CoreSplit(core: string) returns (prefix: string, filler: string)
    requires ParseInt(StripPrefixes(ToUpper(core))).Some?
    ensures IsPrefix(ToUpper(prefix)) && All(IsFiller, filler)
    ensures core == prefix + (filler + StripPrefixes(ToUpper(core)))
    ensures prefix == "" && filler != "" ==> filler[0] == core[0]
  {
    var upper, f := StripSplit(ToUpper(core));
    ParsedBody(StripPrefixes(ToUpper(core)));
    PartsOfCore(core, upper, f, StripPrefixes(ToUpper(core)));
    prefix, filler := core[..|upper|], f;
  }

  lemma SameText(p: Spelling, core: string, code: string)
    requires core == p.prefix + (p.filler + (p.Sign() + p.digits)) && code == p.lead + (core + p.trail)
    ensures p.Text() == code
  {
    assert p.Core() == core;
  }

  lemma Assembled(lead: string, prefix: string, filler: string, body: string, trail: string) returns (p: Spelling)
    requires All(IsSpace, lead) && All(IsSpace, trail) && IsPrefix(ToUpper(prefix)) && All(IsFiller, filler)
    requires prefix == "" && filler != "" ==> filler[0] == '-'
    requires ParseInt(body).Some? && body[0] != '-'
    ensures p.Valid() && p.Text() == lead + (prefix + (filler + body) + trail)
    ensures Value(p.digits) == ParseInt(body).value <= MAX_INT64
  {
    ParsedBody(body);
    p := Spelling(lead, prefix, filler, body[0] == '+', if body[0] == '+' then body[1..] else body, trail);
    SameText(p, prefix + (filler + body), lead + (prefix + (filler + body) + trail));
  }

  /** Whatever the parser accepts is a spelling of the number. */
  lemma ParsedIsSpelled(code: string) returns (p: Spelling)
    requires ParseCode(code).Some?
    ensures p.Valid() && p.Text() == code && Value(p.digits) == ParseCode(code).value <= MAX_INT64
  {
    var lead, trail := SpacesAround(code);
    var core := TrimSpace(code);
    var prefix, filler := CoreSplit(core);
    p := Assembled(lead, prefix, filler, StripPrefixes(ToUpper(core)), trail);
  }

  /** The parser reads a code as a number exactly when the code spells it: any prefix or
      none, any case, spaces around, dashes and spaces before the digits, leading zeros. */
  lemma ParsesExactlySpellings(code: string, number: int)
    ensures ParseCode(code) == Some(number) <==> Spells(code, number) && number <= MAX_INT64
  {
    if ParseCode(code) == Some(number) {
      var p := ParsedIsSpelled(code);
      assert Spells(code, number);
    }
    if Spells(code, number) && number <= MAX_INT64 {
      var p: Spelling :| p.Valid() && p.Text() == code && Value(p.digits) == number;
      SpelledIsParsed(p);
    }
  }

  lemma PaddedValue(numeral: string, width: nat)
    requires numeral != "" && AllDigits(numeral)
    ensures var digits := ZeroPad(numeral, width);
            digits != "" && AllDigits(digits) && Value(digits) == Value(numeral)
  {
    if |numeral| < width {
      ValueOfPadded(width - |numeral|, numeral);
    }
  }

  lemma DashedParses(filler: string, digits: string)
    requires All(IsFiller, filler) && digits != "" && AllDigits(digits)
    ensures ParseCode("QW-" + (filler + digits)) == if Value(digits) <= MAX_INT64 then Some(Value(digits)) else None
  {
    var p := Spelling("", "QW-", filler, false, digits, "");
    assert ToUpper("QW-") == "QW-";
    assert p.Core() == "QW-" + (filler + digits);
    assert p.Text() == p.Core();
    SpelledIsParsed(p);
  }

  /** A printed code reads back as its number's magnitude: the dash before a negative
      number is taken for a separator. */
  lemma ParseOfCode(number: int)
    ensures ParseCode(Code(number)) ==
            var n := if number >= 0 then number else -number;
            if n <= MAX_INT64 then Some(n) else None
  {
    if number >= 0 {
      PaddedValue(Itoa(number), 4);
      assert "" + ZeroPad(Itoa(number), 4) == ZeroPad(Itoa(number), 4);
      DashedParses("", ZeroPad(Itoa(number), 4));
    } else {
      PaddedValue(Itoa(-number), 3);
      DashedParses("-", ZeroPad(Itoa(-number), 3));
    }
  }

  /** So exactly the non-negative codes, however long, survive the round trip. */
  lemma RoundTrip(number: int)
    requires -MAX_INT64 - 1 <= number <= MAX_INT64
    ensures ParseCode(Code(number)) == Some(number) <==> number >= 0
  {
    ParseOfCode(number);
  }

  // ----- how a code reads -----

  /** A non-negative number is printed after "QW-" with at least four digits, zeros only to fill
      up to four; a negative one as a dash and at least three. */
  lemma CodeReads(number: int)
    ensures var (n, width, head) := if number >= 0 then (number, 4, "QW-") else (-number, 3, "QW--");
            && head <= Code(number)
            && var digits := Code(number)[|head|..];
               && AllDigits(digits) && Value(digits) == n
               && |digits| >= width && (|digits| > width ==> digits[0] != '0')
  {
    var n, width := if number >= 0 then number else -number, if number >= 0 then 4 else 3;
    PaddedValue(Itoa(n), width);
    if number >= 0 {
      assert Code(number)[3..] == ZeroPad(Itoa(n), width);
    } else {
      assert Code(number) == "QW--" + ZeroPad(Itoa(n), width);
      assert Code(number)[4..] == ZeroPad(Itoa(n), width);
    }
  }

  /** Hyphens and spaces separate; around the code any of the 25 characters Unicode calls white
      space is dropped. */
  lemma SeparatorsRead(c: char)
    ensures IsFiller(c) <==> c in "- "
    ensures IsSpace(c) <==>
            c as int in {0x9, 0xA, 0xB, 0xC, 0xD, 0x20, 0x85, 0xA0, 0x1680, 0x2000, 0x2001, 0x2002, 0x2003, 0x2004, 0x2005,
                         0x2006, 0x2007, 0x2008, 0x2009, 0x200A, 0x2028, 0x2029, 0x202F, 0x205F, 0x3000}
  {
  }
}
