/**
 Recovery codes as text: how one is printed, how a typed one is normalised and hashed, and the
 generator of a batch.

 Texts are sequences of Unicode characters; codes are ASCII. The random source is a sequence of
 12-byte reads that may run out. SHA-256 is taken to be injective: a digest is its preimage.
 */
module RecoveryGenerator {
  import opened Prelude

  const ALPHABET := "23456789ABCDEFGHJKLMNPQRSTUVWXYZ"
  const CODE_LENGTH := 12
  const GROUP_SIZE := 4
  const CODES_IN_BATCH := 10

  type Byte = b: nat | b < 256

  datatype Digest = Sha256(preimage: string)

  // ----- printing ----------------------------------------------------------------------------

  /** The significant characters of a code. */
  predicate IsPlain(chars: string) { |chars| == CODE_LENGTH && forall i :: 0 <= i < |chars| ==> chars[i] in ALPHABET }

  /** XXXX-XXXX-XXXX */
  function Grouped(chars: string): string
    requires |chars| == CODE_LENGTH
  {
    chars[..4] + "-" + chars[4..8] + "-" + chars[8..]
  }

  ghost predicate IsPrinted(code: string) { exists chars :: IsPlain(chars) && code == Grouped(chars) }

  /** Five bits of each byte choose a character: the low ones, so no byte is favoured. */
  function CodeOf(buf: seq<Byte>): string
    requires |buf| == CODE_LENGTH
  {
    Grouped(seq(CODE_LENGTH, i requires 0 <= i < CODE_LENGTH => ALPHABET[buf[i] % 32]))
  }

  method RandomCode(buf: seq<Byte>) returns (code: string)
    requires |buf| == CODE_LENGTH
    ensures code == CodeOf(buf)
  {
    var chars := "";
    for i := 0 to CODE_LENGTH
      invariant |chars| == i
      invariant forall j :: 0 <= j < i ==> chars[j] == ALPHABET[buf[j] % 32]
    {
      chars := chars + [ALPHABET[buf[i] % 32]];
    }
    assert chars == seq(CODE_LENGTH, i requires 0 <= i < CODE_LENGTH => ALPHABET[buf[i] % 32]);
    code := "";
    var i := 0;
    while i < CODE_LENGTH
      invariant i in {0, 4, 8, 12}
      invariant code == (if i == 0 then "" else if i == 4 then chars[..4]
                         else if i == 8 then chars[..4] + "-" + chars[4..8] else Grouped(chars))
    {
      if i > 0 {
        code := code + "-";
      }
      code := code + chars[i..i+GROUP_SIZE];
      i := i + GROUP_SIZE;
    }
    assert IsPlain(chars) && code == Grouped(chars);
  }

  // ----- normalising -------------------------------------------------------------------------

  function Strip(s: string): string {
    if s == "" then "" else if s[0] == '-' then Strip(s[1..]) else [s[0]] + Strip(s[1..])
  }

  const DOTLESS_I: char := '\U{0131}'
  const LONG_S: char := '\U{017F}'

  /** The upper case of a character, as far as it is ASCII: besides the letters a to z there are two
      characters whose upper case is an ASCII letter. Other letters are left alone, so that this is
      only used to compare with ASCII text. */
  function UpperChar(c: char): char {
    if 'a' <= c <= 'z' then c - 32 as char
    else if c == DOTLESS_I then 'I'
    else if c == LONG_S then 'S'
    else c
  }

  function ToUpper(s: string): (r: string)
    ensures |r| == |s| && forall i :: 0 <= i < |s| ==> r[i] == UpperChar(s[i])
  {
    if s == "" then "" else [UpperChar(s[0])] + ToUpper(s[1..])
  }

  function Normalise(s: string): string { ToUpper(Strip(s)) }

  function HashNormalised(plaintext: string): Digest { Sha256(Normalise(plaintext)) }

  /** `c` is a spelling of the capital letter `u`. */
  predicate Spells(c: char, u: char) {
    || c == u
    || c as int == u as int + 32
    || (u == 'I' && c == DOTLESS_I)
    || (u == 'S' && c == LONG_S)
  }

  /** The same character, or two spellings of one letter. */
  predicate SameLetter(c: char, d: char) {
    c == d || exists u :: 'A' <= u <= 'Z' && Spells(c, u) && Spells(d, u)
  }

  /** `typed` is the code up to letter case, with hyphens anywhere or nowhere. */
  predicate IsVariant(typed: string, code: string) {
    && |Strip(typed)| == |Strip(code)|
    && forall i :: 0 <= i < |Strip(code)| ==> SameLetter(Strip(typed)[i], Strip(code)[i])
  }

  predicate IsAscii(s: string) { forall i :: 0 <= i < |s| ==> s[i] as int < 128 }

  lemma SameLetterIff(c: char, d: char)
    ensures SameLetter(c, d) <==> UpperChar(c) == UpperChar(d)
  {
    var u := UpperChar(c);
    if u == UpperChar(d) && c != d { assert 'A' <= u <= 'Z' && Spells(c, u) && Spells(d, u); }
  }

  /** Variants of one code hash alike. */
  lemma VariantsHashAlike(typed: string, code: string)
    requires IsVariant(typed, code)
    ensures HashNormalised(typed) == HashNormalised(code)
  {
    var s, t := Strip(typed), Strip(code);
    forall i | 0 <= i < |t| ensures UpperChar(s[i]) == UpperChar(t[i]) { SameLetterIff(s[i], t[i]); }
    assert ToUpper(s) == ToUpper(t);
  }

  /** Hashing any typed text finds the digest of an ASCII code exactly when it is a variant of it. */
  lemma HashMatchesVariants(typed: string, code: string)
    requires IsAscii(code)
    ensures HashNormalised(typed) == HashNormalised(code) <==> IsVariant(typed, code)
  {
    var s, t := Strip(typed), Strip(code);
    if IsVariant(typed, code) { VariantsHashAlike(typed, code); }
    if ToUpper(s) == ToUpper(t) {
      assert |s| == |ToUpper(s)| == |t|;
      forall i | 0 <= i < |t| ensures SameLetter(s[i], t[i]) {
        assert UpperChar(s[i]) == ToUpper(s)[i] == ToUpper(t)[i] == UpperChar(t[i]);
        SameLetterIff(s[i], t[i]);
      }
    }
  }

  lemma {:induction false} StripPlain(s: string)
    requires '-' !in s
    ensures Strip(s) == s
  {
    if s != "" {
      assert '-' !in s[1..];
      StripPlain(s[1..]);
    }
  }

  /** A hyphen after hyphen-free text is dropped, and the text kept. */
  lemma {:induction false} StripGroup(s: string, t: string)
    requires '-' !in s
    ensures Strip(s + "-" + t) == s + Strip(t)
  {
    var u := s + "-" + t;
    if s == "" {
      assert u[1..] == t;
    } else {
      assert u[0] == s[0] && u[1..] == s[1..] + "-" + t;
      assert '-' !in s[1..];
      StripGroup(s[1..], t);
    }
  }

  lemma AlphabetRange(c: char)
    requires c in ALPHABET
    ensures '2' <= c <= 'Z'
  {
  }

  lemma AlphabetIsPlain(c: char)
    requires c in ALPHABET
    ensures c != '-' && UpperChar(c) == c && c as int < 128
  {
    AlphabetRange(c);
  }

  /** A printed code's normal form is its significant characters. */
  lemma NormalForm(chars: string)
    requires IsPlain(chars)
    ensures Normalise(Grouped(chars)) == chars
  {
    forall i | 0 <= i < |chars| ensures chars[i] != '-' && UpperChar(chars[i]) == chars[i] {
      AlphabetIsPlain(chars[i]);
    }
    var a, b, c := chars[..4], chars[4..8], chars[8..];
    var rest := b + "-" + c;
    assert Grouped(chars) == a + "-" + rest;
    StripGroup(a, rest);
    StripGroup(b, c);
    StripPlain(c);
    assert a + (b + c) == chars;
    assert ToUpper(chars) == chars;
  }

  lemma PrintedIsAscii(code: string)
    requires IsPrinted(code)
    ensures IsAscii(code)
  {
    var chars :| IsPlain(chars) && code == Grouped(chars);
    forall i | 0 <= i < |chars| ensures chars[i] as int < 128 { AlphabetIsPlain(chars[i]); }
  }

  lemma DistinctCodesDistinctHashes(a: string, b: string)
    requires IsPrinted(a) && IsPrinted(b) && a != b
    ensures HashNormalised(a) != HashNormalised(b)
  {
    var x :| IsPlain(x) && a == Grouped(x);
    var y :| IsPlain(y) && b == Grouped(y);
    NormalForm(x);
    NormalForm(y);
  }

  // ----- a batch -----------------------------------------------------------------------------

  predicate Distinct<T(==)>(s: seq<T>) { forall i, j :: 0 <= i < j < |s| ==> s[i] != s[j] }

  function Hashes(codes: seq<string>): (h: seq<Digest>)
    ensures |h| == |codes| && forall i :: 0 <= i < |codes| ==> h[i] == HashNormalised(codes[i])
  {
    seq(|codes|, i requires 0 <= i < |codes| => HashNormalised(codes[i]))
  }

  /** What Generate returns when it succeeds. */
  ghost predicate IsBatch(codes: seq<string>) {
    |codes| == CODES_IN_BATCH && Distinct(codes) && forall i :: 0 <= i < |codes| ==> IsPrinted(codes[i])
  }

  /** There is such a batch: ten codes of one repeated character each. */
  lemma BatchExists()
    ensures exists codes :: IsBatch(codes)
  {
    var plain := seq(CODES_IN_BATCH, i requires 0 <= i < CODES_IN_BATCH => seq(CODE_LENGTH, _ => ALPHABET[i]));
    var codes := seq(CODES_IN_BATCH, i requires 0 <= i < CODES_IN_BATCH => Grouped(plain[i]));
    forall i | 0 <= i < CODES_IN_BATCH ensures IsPrinted(codes[i]) && codes[i][0] == ALPHABET[i] {
      assert IsPlain(plain[i]) && codes[i] == Grouped(plain[i]);
    }
    assert forall i, j :: 0 <= i < j < CODES_IN_BATCH ==> ALPHABET[i] != ALPHABET[j];
    assert IsBatch(codes);
  }

  /** Distinct printed codes never share a digest. */
  lemma BatchHashesDistinct(codes: seq<string>)
    requires IsBatch(codes)
    ensures Distinct(Hashes(codes))
  {
    forall i, j | 0 <= i < j < |codes| ensures Hashes(codes)[i] != Hashes(codes)[j] {
      DistinctCodesDistinctHashes(codes[i], codes[j]);
    }
  }

  /** The first ten distinct codes drawn, in the order of their first draw. */
  function Collected(draws: seq<seq<Byte>>): (codes: seq<string>)
    requires forall i :: 0 <= i < |draws| ==> |draws[i]| == CODE_LENGTH
    ensures |codes| <= CODES_IN_BATCH
  {
    if draws == [] then []
    else
      var codes := Collected(draws[..|draws|-1]);
      var code := CodeOf(draws[|draws|-1]);
      if |codes| == CODES_IN_BATCH || code in codes then codes else codes + [code]
  }

  /** No code is collected twice, each is a printed code, and none that was drawn is passed over
      while fewer than ten are there. */
  lemma {:induction false} CollectedAreDistinct(draws: seq<seq<Byte>>)
    requires forall i :: 0 <= i < |draws| ==> |draws[i]| == CODE_LENGTH
    ensures Distinct(Collected(draws))
    ensures forall c :: c in Collected(draws) ==> IsPrinted(c)
    ensures |Collected(draws)| < CODES_IN_BATCH ==> forall i :: 0 <= i < |draws| ==>
      CodeOf(draws[i]) in Collected(draws)
  {
    if draws != [] {
      CollectedAreDistinct(draws[..|draws|-1]);
      CodeIsPrinted(draws[|draws|-1]);
    }
  }

  lemma CodeIsPrinted(buf: seq<Byte>)
    requires |buf| == CODE_LENGTH
    ensures IsPrinted(CodeOf(buf))
  {
    var chars := seq(CODE_LENGTH, j requires 0 <= j < CODE_LENGTH => ALPHABET[buf[j] % 32]);
    assert IsPlain(chars);
  }

  lemma {:induction false} CollectedIsFull(draws: seq<seq<Byte>>, n: nat)
    requires n <= |draws| && forall i :: 0 <= i < |draws| ==> |draws[i]| == CODE_LENGTH
    requires |Collected(draws[..n])| == CODES_IN_BATCH
    ensures Collected(draws) == Collected(draws[..n])
    decreases |draws|
  {
    if n < |draws| {
      var init := draws[..|draws|-1];
      assert init[..n] == draws[..n];
      CollectedIsFull(init, n);
    } else {
      assert draws[..n] == draws;
    }
  }

  /** Draws until ten distinct codes are there; it fails exactly when the random source does first. */
  method Generate(draws: seq<seq<Byte>>) returns (r: Option<(seq<string>, seq<Digest>)>)
    requires forall i :: 0 <= i < |draws| ==> |draws[i]| == CODE_LENGTH
    ensures r.Some? <==> |Collected(draws)| == CODES_IN_BATCH
    ensures r.Some? ==> r.value == (Collected(draws), Hashes(Collected(draws)))
    ensures r.Some? ==> IsBatch(r.value.0) && Distinct(r.value.1)
  {
    var codes: seq<string> := [];
    var hashes: seq<Digest> := [];
    var seen: set<string> := {};
    var next := 0;
    while |codes| < CODES_IN_BATCH
      invariant 0 <= next <= |draws|
      invariant codes == Collected(draws[..next]) && hashes == Hashes(codes)
      invariant forall c :: c in seen <==> c in codes
      decreases |draws| - next
    {
      if next == |draws| {
        assert draws[..next] == draws;
        return None;
      }
      var code := RandomCode(draws[next]);
      assert draws[..next+1][..next] == draws[..next];
      next := next + 1;
      if code in seen { continue; }
      seen := seen + {code};
      codes := codes + [code];
      hashes := hashes + [HashNormalised(code)];
    }
    CollectedIsFull(draws, next);
    CollectedAreDistinct(draws);
    assert forall i :: 0 <= i < |codes| ==> codes[i] in codes;
    BatchHashesDistinct(codes);
    return Some((codes, hashes));
  }
}
