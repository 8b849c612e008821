/** Base58 text (draft-msporny-base58, section 4) to bytes. */
module Base58 {
  import opened Wrappers
  import opened Positional
  import Alphabet

  const DIGITS := "123456789"
  const UPPER_H := "ABCDEFGH"
  const UPPER_N := "JKLMN"
  const UPPER_Z := "PQRSTUVWXYZ"
  const LOWER_K := "abcdefghijk"
  const LOWER_Z := "mnopqrstuvwxyz"

  /** Digits and letters without `0`, `I`, `O` and `l`. */
  const ALPHABET := DIGITS + UPPER_H + UPPER_N + UPPER_Z + LOWER_K + LOWER_Z

  /** The number of leading `1` characters. */
  function LeadingOnes(s: string): (n: nat)
    ensures n <= |s|
  {
    if s != "" && s[0] == '1' then 1 + LeadingOnes(s[1..]) else 0
  }

  /** The bytes of a digit sequence: one zero byte for each leading zero digit, and then the number in base 256. */
  function Convert(from: nat, to: nat, ds: Digits): Digits
    requires to >= 2
  {
    Zeros(LeadingZeros(ds)) + ToDigits(to, Value(from, ds))
  }

  datatype Error = InvalidSignature

  function Decode(s: string): Result<Digits, Error> {
    match Alphabet.Digits(ALPHABET, s)
    case None => Err(InvalidSignature)
    case Some(ds) => Ok(Convert(58, 256, ds))
  }

  /** The standard encoder. */
  function Encode(bytes: Digits): string
    requires InBase(256, bytes)
  {
    AlphabetSize();
    ConvertInBase(256, 58, bytes);
    Alphabet.Spell(ALPHABET, Convert(256, 58, bytes))
  }

  lemma AlphabetSize()
    ensures |ALPHABET| == 58 && ALPHABET[0] == '1'
  {
  }

  lemma ConvertInBase(from: nat, to: nat, ds: Digits)
    requires to >= 2
    ensures InBase(to, Convert(from, to, ds))
  {
    ToDigitsShape(to, Value(from, ds));
  }

  /** Converting there and back is the identity, leading zeros included. */
  lemma ConvertBack(from: nat, to: nat, ds: Digits)
    requires from >= 2 && to >= 2 && InBase(from, ds)
    ensures Convert(to, from, Convert(from, to, ds)) == ds
  {
    hide ToDigits, Value, LeadingZeros, Zeros;
    var z, v := LeadingZeros(ds), Value(from, ds);
    ToDigitsShape(to, v);
    LeadingZerosOf(z, ToDigits(to, v));
    ValueIgnoresLeadingZeros(to, z, ToDigits(to, v));
    ValueOfToDigits(to, v);
    ToDigitsOfValue(from, ds);
    assert Zeros(z) + ds[z..] == ds;
  }

  lemma AlphabetDistinct()
    ensures Alphabet.Distinct(ALPHABET)
  {
    hide Alphabet.Distinct;
    Runs();
    Alphabet.RunDistinct(DIGITS, '1');
    Alphabet.RunDistinct(UPPER_H, 'A');
    Alphabet.RunDistinct(UPPER_N, 'J');
    Alphabet.RunDistinct(UPPER_Z, 'P');
    Alphabet.RunDistinct(LOWER_K, 'a');
    Alphabet.RunDistinct(LOWER_Z, 'm');
    Alphabet.DistinctConcat(DIGITS, UPPER_H);
    Alphabet.DistinctConcat(DIGITS + UPPER_H, UPPER_N);
    Alphabet.DistinctConcat(DIGITS + UPPER_H + UPPER_N, UPPER_Z);
    Alphabet.DistinctConcat(DIGITS + UPPER_H + UPPER_N + UPPER_Z, LOWER_K);
    Alphabet.DistinctConcat(DIGITS + UPPER_H + UPPER_N + UPPER_Z + LOWER_K, LOWER_Z);
  }

  lemma Runs()
    ensures |DIGITS| == 9 && |UPPER_H| == 8 && |UPPER_N| == 5 && |UPPER_Z| == 11 && |LOWER_K| == 11 && |LOWER_Z| == 14
    ensures Alphabet.IsRun(DIGITS, '1') && Alphabet.IsRun(UPPER_H, 'A') && Alphabet.IsRun(UPPER_N, 'J')
    ensures Alphabet.IsRun(UPPER_Z, 'P') && Alphabet.IsRun(LOWER_K, 'a') && Alphabet.IsRun(LOWER_Z, 'm')
  {
  }

  /** Decoding inverts the standard encoder on every byte string. */
  lemma DecodeOfEncoded(bytes: Digits)
    requires InBase(256, bytes)
    ensures Decode(Encode(bytes)) == Ok(bytes)
  {
    hide Convert, Alphabet.Digits, Alphabet.Spell;
    AlphabetSize();
    AlphabetDistinct();
    ConvertInBase(256, 58, bytes);
    Alphabet.DigitsOfSpelled(ALPHABET, Convert(256, 58, bytes));
    ConvertBack(256, 58, bytes);
  }

  /** A text decodes exactly when it has base58 characters only, and then it is the encoding of what it decodes to. */
  lemma EncodeOfDecoded(s: string)
    ensures Decode(s).Ok? <==> forall c | c in s :: c in ALPHABET
    ensures Decode(s).Ok? ==> InBase(256, Decode(s).value) && Encode(Decode(s).value) == s
  {
    hide Convert, Alphabet.Digits, Alphabet.Spell;
    AlphabetSize();
    Alphabet.DigitsIff(ALPHABET, s);
    if Decode(s).Ok? {
      var ds := Alphabet.Digits(ALPHABET, s).value;
      ConvertInBase(58, 256, ds);
      ConvertBack(58, 256, ds);
      Alphabet.SpelledDigits(ALPHABET, s);
    }
  }

  /** So no two texts decode to the same bytes. */
  lemma DecodeInjective(s: string, t: string)
    requires Decode(s).Ok? && Decode(s) == Decode(t)
    ensures s == t
  {
    hide Decode, Encode;
    EncodeOfDecoded(s);
    EncodeOfDecoded(t);
  }

  // ----- the loop -----

  lemma {:induction false} OnesAreZeros(s: string)
    requires Alphabet.Digits(ALPHABET, s).Some?
    ensures LeadingOnes(s) == LeadingZeros(Alphabet.Digits(ALPHABET, s).value)
    decreases |s|
  {
    hide Alphabet.IndexOf;
    AlphabetSize();
    AlphabetDistinct();
    if s != "" {
      var ds := Alphabet.Digits(ALPHABET, s).value;
      OnesAreZeros(s[1..]);
      assert ds[1..] == Alphabet.Digits(ALPHABET, s[1..]).value;
      Alphabet.IndexOfAt(ALPHABET, 0);
      assert ds[0] == 0 <==> s[0] == '1';
    }
  }

  lemma {:induction false} DigitsOfPrefix(s: string, i: nat)
    requires i < |s|
    ensures Alphabet.Digits(ALPHABET, s[..i + 1]) ==
            if Alphabet.Digits(ALPHABET, s[..i]).Some? && Alphabet.IndexOf(ALPHABET, s[i]).Some?
            then Some(Alphabet.Digits(ALPHABET, s[..i]).value + [Alphabet.IndexOf(ALPHABET, s[i]).value])
            else None
    decreases i
  {
    hide Alphabet.IndexOf;
    if i > 0 {
      assert s[..i + 1][1..] == s[1..][..i] && s[..i][1..] == s[1..][..i - 1];
      DigitsOfPrefix(s[1..], i - 1);
      var first, last := Alphabet.IndexOf(ALPHABET, s[0]), Alphabet.IndexOf(ALPHABET, s[i]);
      var before := Alphabet.Digits(ALPHABET, s[1..][..i - 1]);
      if first.Some? && before.Some? && last.Some? {
        assert [first.value] + (before.value + [last.value]) == [first.value] + before.value + [last.value];
      }
    } else {
      assert s[..1][1..] == "" && s[..0] == "";
      assert forall d: nat :: [] + [d] == [d] && [d] + [] == [d];
      NoDigits();
    }
  }

  method B58Decode(value: string) returns (r: Result<Digits, Error>)
    ensures r == Decode(value)
  {
    hide Alphabet.Digits, Alphabet.IndexOf, Value, ToDigits;
    var number: nat := 0;
    assert value[..0] == "";
    NoDigits();
    for i := 0 to |value|
      invariant Alphabet.Digits(ALPHABET, value[..i]).Some?
      invariant number == Value(58, Alphabet.Digits(ALPHABET, value[..i]).value)
    {
      DigitsOfPrefix(value, i);
      var digit := Alphabet.IndexOf(ALPHABET, value[i]);
      if digit.None? {
        BadCharacter(value, i);
        return Err(InvalidSignature);
      }
      ValueSnoc(58, Alphabet.Digits(ALPHABET, value[..i]).value, digit.value);
      number := number * 58 + digit.value;
    }
    assert value[..|value|] == value;
    OnesAreZeros(value);
    var combined := ToDigits(256, number);
    return Ok(Zeros(LeadingOnes(value)) + combined);
  }

  lemma NoDigits()
    ensures Alphabet.Digits(ALPHABET, "") == Some([]) && Value(58, []) == 0
  {
  }

  lemma BadCharacter(s: string, i: nat)
    requires i < |s| && Alphabet.IndexOf(ALPHABET, s[i]).None?
    ensures Alphabet.Digits(ALPHABET, s).None?
  {
    hide Alphabet.IndexOf, Alphabet.Digits;
    Alphabet.IndexOfNone(ALPHABET, s[i]);
    Alphabet.DigitsIff(ALPHABET, s);
  }
}
