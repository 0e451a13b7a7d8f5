/** Request identifiers: "REQ-", the creation time in milliseconds written in
    base 36, "-", and a short random token, all upper-cased. The clock reading
    and the random token are parameters. */
module RequestIds {
  import opened Wrappers
  import opened Text
  import opened Seqs

  predicate IsBase36Lower(c: char) {
    '0' <= c <= '9' || 'a' <= c <= 'z'
  }

  predicate IsBase36Upper(c: char) {
    '0' <= c <= '9' || 'A' <= c <= 'Z'
  }

  function Base36Digit(d: nat): (c: char)
    requires d < 36
    ensures IsBase36Lower(c)
  {
    if d < 10 then (48 + d) as char else (97 + d - 10) as char
  }

  /** `Number.prototype.toString(36)` of a non-negative integer: most
      significant digit first, no leading zeros, lower-case letters. */
  function Base36(n: nat): (s: string)
    ensures |s| > 0
    ensures forall i :: 0 <= i < |s| ==> IsBase36Lower(s[i])
    ensures |s| > 1 ==> s[0] != '0'
    decreases n
  {
    if n < 36 then [Base36Digit(n)] else Base36(n / 36) + [Base36Digit(n % 36)]
  }

  /** `toString(36)` of an integer of either sign. */
  function TimestampText(timestamp: int): (t: string)
    ensures |t| > 0
    ensures t[0] == '-' <==> timestamp < 0
  {
    if timestamp < 0 then "-" + Base36(-timestamp) else Base36(timestamp)
  }

  function Min(a: int, b: int): int {
    if a <= b then a else b
  }

  /** `random.substring(2, 8)`: both bounds are clamped to the length. */
  function RandomPart(random: string): (r: string)
    ensures |r| <= 6
    ensures |r| == if |random| <= 2 then 0 else Min(|random|, 8) - 2
    ensures forall i :: 0 <= i < |r| ==> r[i] == random[i + 2]
  {
    random[Min(2, |random|)..Min(8, |random|)]
  }

  /** `generateRequestId`, with the clock reading and the random token passed in. */
  function GenerateRequestId(timestamp: int, random: string): (id: string)
    ensures |id| >= 4 && id[..4] == "REQ-"
    ensures forall i :: 0 <= i < |id| ==> !IsAsciiLower(id[i])
  {
    ToUpper("REQ-" + TimestampText(timestamp) + "-" + RandomPart(random))
  }

  /** Value of an upper-case base-36 digit. */
  function DigitValue(c: char): nat
    requires IsBase36Upper(c)
  {
    if c <= '9' then c as int - 48 else c as int - 65 + 10
  }

  /** Reads an upper-case base-36 numeral. */
  function FromBase36(s: string): nat
    requires forall i :: 0 <= i < |s| ==> IsBase36Upper(s[i])
  {
    if |s| == 0 then 0 else FromBase36(s[..|s| - 1]) * 36 + DigitValue(s[|s| - 1])
  }

  predicate AllBase36Upper(s: string) {
    forall i :: 0 <= i < |s| ==> IsBase36Upper(s[i])
  }

  /** Splits "<numeral>-<token>" at its first hyphen. */
  function SplitNumeral(body: string): Option<(nat, string)> {
    var k := IndexOf(body, '-');
    if k <= 0 || !AllBase36Upper(body[..k]) then None
    else Some((FromBase36(body[..k]), body[k + 1..]))
  }

  /** Attaches the sign read before the numeral. */
  function Signed(negative: bool, parts: Option<(nat, string)>): Option<(int, string)> {
    if parts.None? then None
    else
      var magnitude: int := parts.value.0;
      Some((if negative then -magnitude else magnitude, parts.value.1))
  }

  /** Splits an identifier back into its timestamp and its random token. */
  function ParseRequestId(id: string): Option<(int, string)> {
    if |id| < 4 || id[..4] != "REQ-" then None
    else if |id| > 4 && id[4] == '-' then Signed(true, SplitNumeral(id[5..]))
    else Signed(false, SplitNumeral(id[4..]))
  }

  lemma UpperDigit(d: nat)
    requires d < 36
    ensures IsBase36Upper(UpperChar(Base36Digit(d)))
    ensures DigitValue(UpperChar(Base36Digit(d))) == d
  {
  }

  /** Reading back the upper-cased base-36 text of `n` gives `n`. */
  lemma {:induction false} Base36RoundTrip(n: nat)
    ensures AllBase36Upper(ToUpper(Base36(n)))
    ensures FromBase36(ToUpper(Base36(n))) == n
  {
    var s := ToUpper(Base36(n));
    if n < 36 {
      UpperDigit(n);
    } else {
      Base36RoundTrip(n / 36);
      UpperDigit(n % 36);
      ToUpperAppend(Base36(n / 36), [Base36Digit(n % 36)]);
      assert s[..|s| - 1] == ToUpper(Base36(n / 36));
    }
  }

  /** The parts of a generated identifier, before upper-casing is undone. */
  lemma GeneratedShape(timestamp: int, random: string)
    ensures GenerateRequestId(timestamp, random)
      == "REQ-" + ToUpper(TimestampText(timestamp)) + "-" + ToUpper(RandomPart(random))
  {
    var t, r := TimestampText(timestamp), RandomPart(random);
    ToUpperAppend("REQ-" + t + "-", r);
    ToUpperAppend("REQ-" + t, "-");
    ToUpperAppend("REQ-", t);
    assert ToUpper("REQ-") == "REQ-";
    assert ToUpper("-") == "-";
  }

  lemma SplitAssembled(digits: string, token: string)
    requires |digits| > 0 && AllBase36Upper(digits)
    ensures SplitNumeral(digits + ("-" + token)) == Some((FromBase36(digits), token))
  {
    var body := digits + ("-" + token);
    assert '-' !in digits;
    assert body[|digits|] == '-' && body[..|digits|] == digits;
    assert IndexOf(body, '-') == |digits|;
    assert body[|digits| + 1..] == token;
  }

  lemma ParsePositiveForm(id: string, body: string)
    requires |id| >= 4 && id[..4] == "REQ-" && id[4..] == body && (|body| == 0 || body[0] != '-')
    ensures ParseRequestId(id) == Signed(false, SplitNumeral(body))
  {
  }

  lemma ParseNegativeForm(id: string, body: string)
    requires |id| > 4 && id[..4] == "REQ-" && id[4] == '-' && id[5..] == body
    ensures ParseRequestId(id) == Signed(true, SplitNumeral(body))
  {
  }

  lemma SignedNegative(magnitude: nat, token: string, timestamp: int)
    requires magnitude == -timestamp
    ensures Signed(true, Some((magnitude, token))) == Some((timestamp, token))
  {
  }

  /** Parsing an identifier assembled from a non-empty upper-case numeral
      and a token. */
  lemma ParseAssembledPositive(digits: string, token: string)
    requires |digits| > 0 && AllBase36Upper(digits)
    ensures var v: int := FromBase36(digits);
      ParseRequestId("REQ-" + (digits + ("-" + token))) == Some((v, token))
  {
    var body := digits + ("-" + token);
    var id := "REQ-" + body;
    assert id[..4] == "REQ-" && id[4..] == body && body[0] == digits[0];
    ParsePositiveForm(id, body);
    SplitAssembled(digits, token);
  }

  /** The same, with a minus sign before the numeral. */
  lemma ParseAssembledNegative(digits: string, token: string, id: string, timestamp: int)
    requires |digits| > 0 && AllBase36Upper(digits) && FromBase36(digits) == -timestamp
    requires |id| > 4 && id[..4] == "REQ-" && id[4] == '-' && id[5..] == digits + ("-" + token)
    ensures ParseRequestId(id) == Some((timestamp, token))
  {
    ParseNegativeForm(id, digits + ("-" + token));
    SplitAssembled(digits, token);
    SignedNegative(FromBase36(digits), token, timestamp);
  }

  lemma NegativeLayout(id: string, digits: string, token: string)
    requires id == "REQ-" + ("-" + digits) + "-" + token
    ensures |id| > 4 && id[..4] == "REQ-" && id[4] == '-' && id[5..] == digits + ("-" + token)
  {
  }

  lemma GeneratedNegativeForm(timestamp: int, random: string)
    requires timestamp < 0
    ensures var id := GenerateRequestId(timestamp, random);
      && |id| > 4 && id[..4] == "REQ-" && id[4] == '-'
      && id[5..] == ToUpper(Base36(-timestamp)) + ("-" + ToUpper(RandomPart(random)))
  {
    GeneratedShape(timestamp, random);
    ToUpperAppend("-", Base36(-timestamp));
    assert ToUpper("-") == "-";
    assert ToUpper(TimestampText(timestamp)) == "-" + ToUpper(Base36(-timestamp));
    NegativeLayout(GenerateRequestId(timestamp, random), ToUpper(Base36(-timestamp)), ToUpper(RandomPart(random)));
  }

  lemma ParseGeneratedNegative(timestamp: int, random: string)
    requires timestamp < 0
    ensures ParseRequestId(GenerateRequestId(timestamp, random))
      == Some((timestamp, ToUpper(RandomPart(random))))
  {
    var n: nat := -timestamp;
    var digits := ToUpper(Base36(n));
    var token := ToUpper(RandomPart(random));
    var id := GenerateRequestId(timestamp, random);
    GeneratedNegativeForm(timestamp, random);
    assert id[5..] == digits + ("-" + token);
    Base36RoundTrip(n);
    ParseAssembledNegative(digits, token, id, timestamp);
  }

  lemma ParseGeneratedPositive(timestamp: int, random: string)
    requires timestamp >= 0
    ensures ParseRequestId(GenerateRequestId(timestamp, random))
      == Some((timestamp, ToUpper(RandomPart(random))))
  {
    var digits := ToUpper(Base36(timestamp));
    var token := ToUpper(RandomPart(random));
    GeneratedShape(timestamp, random);
    Base36RoundTrip(timestamp);
    assert GenerateRequestId(timestamp, random) == "REQ-" + (digits + ("-" + token));
    ParseAssembledPositive(digits, token);
  }

  /** A generated identifier can be split back into the timestamp it was made
      from and the upper-cased random token. */
  lemma ParseGenerated(timestamp: int, random: string)
    ensures ParseRequestId(GenerateRequestId(timestamp, random))
      == Some((timestamp, ToUpper(RandomPart(random))))
  {
    if timestamp < 0 {
      ParseGeneratedNegative(timestamp, random);
    } else {
      ParseGeneratedPositive(timestamp, random);
    }
  }

  /** For a non-negative timestamp the identifier has exactly two hyphens when
      the random token has none: one after "REQ" and one between the parts. */
  lemma TwoHyphens(timestamp: nat, random: string)
    requires '-' !in RandomPart(random)
    ensures var id := GenerateRequestId(timestamp, random);
      forall i :: 0 <= i < |id| ==> (id[i] == '-' <==> i == 3 || i == 4 + |Base36(timestamp)|)
  {
    GeneratedShape(timestamp, random);
    var digits, token := ToUpper(Base36(timestamp)), ToUpper(RandomPart(random));
    assert forall i :: 0 <= i < |digits| ==> digits[i] != '-';
    assert forall i :: 0 <= i < |token| ==> token[i] != '-' by {
      forall i | 0 <= i < |token| ensures token[i] != '-' {
        assert RandomPart(random)[i] != '-';
      }
    }
  }

  /** No generated identifier equals the seeded "REQ-001": that one has no
      hyphen after its numeral, so it does not split. */
  lemma GeneratedDiffersFromSeed(timestamp: int, random: string)
    ensures GenerateRequestId(timestamp, random) != "REQ-001"
  {
    ParseGenerated(timestamp, random);
    assert "REQ-001"[4..] == "001";
    assert IndexOf("001", '-') == -1;
  }
}
