/** The random sample identifier: four random bytes read as a big-endian integer and
    written in base 58 over the Bitcoin-style alphabet, most significant digit first,
    then cut to its first three characters (main.py `get_random_sample_hash`). */
module Base58 {
  import opened Wrappers
  import opened Seqs

  /** The 58 digit characters in digit order, "123456789ABCDEFGHJKLMNPQRSTUVWXYZabcdefghijkmnopqrstuvwxyz"
      (`AlphabetSpelledOut` proves it is that string). */
  const Alphabet: string := seq(58, CharAt)

  /** Number of leading characters kept for a sample ID (the code slices `[:3]`). */
  const IdLength: nat := 3

  /** Number of random bytes drawn for one ID (`os.urandom(4)`). */
  const EntropyBytes: nat := 4

  /** 2^32: one more than the largest integer four bytes can hold. */
  const EntropyRange: nat := 0x1_0000_0000

  type Byte = x: int | 0 <= x < 256

  type Digit = x: int | 0 <= x < 58

  function Pow(b: nat, e: nat): (p: nat)
    ensures b > 0 ==> p > 0
  {
    if e == 0 then 1 else b * Pow(b, e - 1)
  }

  /** `int.from_bytes(bs, "big")`. */
  function FromBigEndian(bs: seq<Byte>): (n: nat)
    ensures n < Pow(256, |bs|)
  {
    if bs == [] then 0
    else
      var high := FromBigEndian(bs[..|bs| - 1]);
      assert high + 1 <= Pow(256, |bs| - 1);
      assert high * 256 + 256 <= Pow(256, |bs| - 1) * 256;
      high * 256 + bs[|bs| - 1]
  }

  /** Four bytes give an integer below 2^32. */
  lemma FourBytesRange()
    ensures Pow(256, EntropyBytes) == EntropyRange
  {
  }

  // ---------------------------------------------------------------------------
  // The alphabet, digit by digit

  /** The character for digit `d`: each run of the alphabet is a run of consecutive code points. */
  function CharOf(d: Digit): char {
    if d < 9 then (d + '1' as int) as char
    else if d < 17 then (d - 9 + 'A' as int) as char
    else if d < 22 then (d - 17 + 'J' as int) as char
    else if d < 33 then (d - 22 + 'P' as int) as char
    else if d < 44 then (d - 33 + 'a' as int) as char
    else (d - 44 + 'm' as int) as char
  }

  /** `CharOf` as a total function, so the alphabet is built from a named function rather
      than a lambda; indices outside the alphabet never occur. */
  function CharAt(i: int): char {
    if 0 <= i < 58 then CharOf(i) else '1'
  }

  /** The digit a character stands for, if it is in the alphabet. */
  function DigitOf(c: char): Option<Digit> {
    if '1' <= c <= '9' then Some(c as int - '1' as int)
    else if 'A' <= c <= 'H' then Some(c as int - 'A' as int + 9)
    else if 'J' <= c <= 'N' then Some(c as int - 'J' as int + 17)
    else if 'P' <= c <= 'Z' then Some(c as int - 'P' as int + 22)
    else if 'a' <= c <= 'k' then Some(c as int - 'a' as int + 33)
    else if 'm' <= c <= 'z' then Some(c as int - 'm' as int + 44)
    else None
  }

  /** A character that names a base-58 digit. */
  predicate InAlphabet(c: char) {
    DigitOf(c).Some?
  }

  /** Positions `k..` of `chunk` hold the characters of digits `offset + k ..`. */
  predicate ChunkMatches(chunk: string, offset: nat, k: nat)
    decreases |chunk| - k
  {
    k >= |chunk| || (offset + k < 58 && chunk[k] == CharOf(offset + k) && ChunkMatches(chunk, offset, k + 1))
  }

  lemma {:induction false} ChunkAt(chunk: string, offset: nat, k: nat, j: nat)
    requires ChunkMatches(chunk, offset, k)
    requires k <= j < |chunk|
    ensures offset + j < 58 && chunk[j] == CharOf(offset + j)
    decreases j - k
  {
    if k < j {
      ChunkAt(chunk, offset, k + 1, j);
    }
  }

  /** A run of the alphabet, checked character by character. */
  lemma RunMatches(chunk: string, offset: nat)
    requires ChunkMatches(chunk, offset, 0) && offset + |chunk| <= 58
    ensures Alphabet[offset..offset + |chunk|] == chunk
  {
    forall j | 0 <= j < |chunk|
      ensures Alphabet[offset..offset + |chunk|][j] == chunk[j]
    {
      ChunkAt(chunk, offset, 0, j);
    }
  }

  lemma RunDigits19()
    ensures Alphabet[0..9] == "123456789"
  {
    assert ChunkMatches("123456789", 0, 0);
    RunMatches("123456789", 0);
  }

  lemma RunUpperAToH()
    ensures Alphabet[9..17] == "ABCDEFGH"
  {
    assert ChunkMatches("ABCDEFGH", 9, 0);
    RunMatches("ABCDEFGH", 9);
  }

  lemma RunUpperJToN()
    ensures Alphabet[17..22] == "JKLMN"
  {
    assert ChunkMatches("JKLMN", 17, 0);
    RunMatches("JKLMN", 17);
  }

  lemma RunUpperPToZ()
    ensures Alphabet[22..33] == "PQRSTUVWXYZ"
  {
    assert ChunkMatches("PQRSTUVWXYZ", 22, 0);
    RunMatches("PQRSTUVWXYZ", 22);
  }

  lemma RunLowerAToK()
    ensures Alphabet[33..44] == "abcdefghijk"
  {
    assert ChunkMatches("abcdefghijk", 33, 0);
    RunMatches("abcdefghijk", 33);
  }

  lemma RunLowerMToZ()
    ensures Alphabet[44..58] == "mnopqrstuvwxyz"
  {
    assert ChunkMatches("mnopqrstuvwxyz", 44, 0);
    RunMatches("mnopqrstuvwxyz", 44);
  }

  /** The alphabet, character for character, is the one the program writes out
      (here in six runs of consecutive code points). */
  lemma AlphabetSpelledOut()
    ensures Alphabet == "123456789" + "ABCDEFGH" + "JKLMN" + "PQRSTUVWXYZ" + "abcdefghijk" + "mnopqrstuvwxyz"
  {
    RunDigits19();
    RunUpperAToH();
    RunUpperJToN();
    RunUpperPToZ();
    RunLowerAToK();
    RunLowerMToZ();
    var a := Alphabet;
    assert a[..9] == a[0..9];
    PrefixJoin(a, 9, 17);
    PrefixJoin(a, 17, 22);
    PrefixJoin(a, 22, 33);
    PrefixJoin(a, 33, 44);
    PrefixJoin(a, 44, 58);
    assert a == a[..58];
  }

  /** Position `d` of the alphabet holds the character of digit `d`. */
  lemma AlphabetAt(d: Digit)
    ensures |Alphabet| == 58
    ensures Alphabet[d] == CharOf(d)
  {
  }

  /** `DigitOf` undoes `CharOf`. */
  lemma DigitOfCharOf(d: Digit)
    ensures DigitOf(CharOf(d)) == Some(d)
  {
  }

  /** `CharOf` undoes `DigitOf` on the characters that name a digit. */
  lemma CharOfDigitOf(c: char)
    requires InAlphabet(c)
    ensures CharOf(DigitOf(c).value) == c
  {
  }

  /** The characters that name a digit are exactly the characters of the alphabet,
      and each sits at the position of the digit it names. */
  lemma AlphabetMembers(c: char)
    ensures c in Alphabet <==> InAlphabet(c)
    ensures InAlphabet(c) ==> Alphabet[DigitOf(c).value] == c
  {
    AlphabetAt(0);
    if c in Alphabet {
      var d :| 0 <= d < |Alphabet| && Alphabet[d] == c;
      AlphabetAt(d);
      DigitOfCharOf(d);
    }
    if InAlphabet(c) {
      AlphabetAt(DigitOf(c).value);
      CharOfDigitOf(c);
    }
  }

  /** The characters easily confused with others are left out: no `0`, `O`, `I` or `l`. */
  lemma AlphabetAvoidsLookalikes()
    ensures '0' !in Alphabet && 'O' !in Alphabet && 'I' !in Alphabet && 'l' !in Alphabet
  {
    AlphabetMembers('0');
    AlphabetMembers('O');
    AlphabetMembers('I');
    AlphabetMembers('l');
  }

  // ---------------------------------------------------------------------------
  // Digits and their values

  /** The base-58 digits of `n`, most significant first; none at all for zero
      (the `while num > 0` loop never runs). */
  function Digits(n: nat): (ds: seq<Digit>)
    ensures ds == [] <==> n == 0
    ensures ds != [] ==> ds[0] != 0
    decreases n
  {
    if n == 0 then [] else Digits(n / 58) + [n % 58]
  }

  /** The number a big-endian digit string stands for. */
  function Value(ds: seq<Digit>): nat {
    if ds == [] then 0 else Value(ds[..|ds| - 1]) * 58 + ds[|ds| - 1]
  }

  /** The characters of a digit string. */
  function ToChars(ds: seq<Digit>): (s: string)
    ensures |s| == |ds|
  {
    seq(|ds|, i requires 0 <= i < |ds| => Alphabet[ds[i]])
  }

  /** Base-58 decoding with the same alphabet: `None` on a character outside it. */
  function Decode(s: string): (r: Option<nat>)
    ensures r.Some? <==> forall i | 0 <= i < |s| :: InAlphabet(s[i])
  {
    if s == [] then Some(0)
    else
      var init := Decode(s[..|s| - 1]);
      var last := DigitOf(s[|s| - 1]);
      assert forall i | 0 <= i < |s| - 1 :: s[..|s| - 1][i] == s[i];
      if init.Some? && last.Some? then Some(init.value * 58 + last.value) else None
  }

  lemma {:induction false} ValueOfDigits(n: nat)
    ensures Value(Digits(n)) == n
    decreases n
  {
    if n > 0 {
      ValueOfDigits(n / 58);
      var ds := Digits(n);
      assert ds[..|ds| - 1] == Digits(n / 58);
    }
  }

  lemma {:induction false} DecodeToChars(ds: seq<Digit>)
    ensures Decode(ToChars(ds)) == Some(Value(ds))
  {
    if ds != [] {
      var init := ds[..|ds| - 1];
      DecodeToChars(init);
      ToCharsLast(ds);
      DecodeAppend(ToChars(init), ds[|ds| - 1]);
    }
  }

  /** The characters of a digit string end with its last digit's character. */
  lemma ToCharsLast(ds: seq<Digit>)
    requires ds != []
    ensures ToChars(ds) == ToChars(ds[..|ds| - 1]) + [CharOf(ds[|ds| - 1])]
  {
    AlphabetAt(ds[|ds| - 1]);
  }

  /** Decoding reads one more digit per character appended. */
  lemma DecodeAppend(t: string, d: Digit)
    requires Decode(t).Some?
    ensures Decode(t + [CharOf(d)]) == Some(Decode(t).value * 58 + d)
  {
    var s := t + [CharOf(d)];
    assert s[..|s| - 1] == t;
    DigitOfCharOf(d);
  }

  lemma {:induction false} ValuePositive(ds: seq<Digit>)
    requires ds != [] && ds[0] != 0
    ensures Value(ds) > 0
  {
    if |ds| > 1 {
      ValuePositive(ds[..|ds| - 1]);
    }
  }

  /** A digit string without a leading zero is the digit string of its own value. */
  lemma {:induction false} DigitsOfValue(ds: seq<Digit>)
    requires ds == [] || ds[0] != 0
    ensures Digits(Value(ds)) == ds
  {
    if ds != [] {
      var init := ds[..|ds| - 1];
      DigitsOfValue(init);
      ValuePositive(ds);
      assert ds == init + [ds[|ds| - 1]];
    }
  }

  /** Splitting a digit string after `k` digits: the leading digits are worth the
      value divided by 58 to the number of trailing ones, rounded down. */
  lemma {:induction false} ValueSplit(ds: seq<Digit>, k: nat)
    requires k <= |ds|
    ensures Value(ds) == Value(ds[..k]) * Pow(58, |ds| - k) + Value(ds[k..])
    ensures Value(ds[k..]) < Pow(58, |ds| - k)
    decreases |ds|
  {
    if k < |ds| {
      var init := ds[..|ds| - 1];
      var last := ds[|ds| - 1];
      ValueSplit(init, k);
      SplitLastDigit(ds, k);
      ShiftDigit(Value(ds[..k]), Pow(58, |ds| - k - 1), Value(init[k..]), last);
    } else {
      assert ds[..k] == ds;
    }
  }

  /** The last digit of `ds` is the last digit of its part after `k`. */
  lemma SplitLastDigit(ds: seq<Digit>, k: nat)
    requires k < |ds|
    ensures ds[..|ds| - 1][..k] == ds[..k]
    ensures Value(ds) == Value(ds[..|ds| - 1]) * 58 + ds[|ds| - 1]
    ensures Value(ds[k..]) == Value(ds[..|ds| - 1][k..]) * 58 + ds[|ds| - 1]
    ensures Pow(58, |ds| - k) == 58 * Pow(58, |ds| - k - 1)
  {
    assert ds[k..][..|ds| - k - 1] == ds[..|ds| - 1][k..];
  }

  /** Appending a digit to both halves of a split. */
  lemma ShiftDigit(high: nat, p: nat, low: nat, d: Digit)
    requires low < p
    ensures (high * p + low) * 58 + d == high * (58 * p) + (low * 58 + d)
    ensures low * 58 + d < 58 * p
  {
    assert (high * p + low) * 58 == high * (58 * p) + low * 58;
    assert low * 58 + d < low * 58 + 58 == (low + 1) * 58 <= p * 58;
  }

  /** A number has at most `k` base-58 digits exactly when it is below 58^k. */
  lemma {:induction false} DigitsLength(n: nat, k: nat)
    ensures n < Pow(58, k) <==> |Digits(n)| <= k
    decreases k
  {
    if k > 0 && n > 0 {
      DigitsLength(n / 58, k - 1);
      var p := Pow(58, k - 1);
      assert n == 58 * (n / 58) + n % 58;
      if n / 58 < p {
        assert n / 58 <= p - 1;
        assert 58 * (n / 58) <= 58 * (p - 1);
      } else {
        assert 58 * (n / 58) >= 58 * p;
      }
    }
  }

  // ---------------------------------------------------------------------------
  // Encoding

  /** The reversed digit list joined into a string, before it is cut. */
  function FullEncoding(num: nat): (s: string)
    ensures |s| == |Digits(num)|
  {
    ToChars(Digits(num))
  }

  /** Decoding the untruncated encoding gives the number back. */
  lemma DecodeFullEncoding(num: nat)
    ensures Decode(FullEncoding(num)) == Some(num)
  {
    DecodeToChars(Digits(num));
    ValueOfDigits(num);
  }

  /** The digits an alphabet string spells. */
  lemma {:induction false} SpelledDigits(s: string) returns (ds: seq<Digit>)
    requires forall i | 0 <= i < |s| :: InAlphabet(s[i])
    ensures ToChars(ds) == s
    ensures s != [] && s[0] != '1' ==> ds[0] != 0
  {
    if s == [] {
      ds := [];
    } else {
      var init := SpelledDigits(s[..|s| - 1]);
      var c := s[|s| - 1];
      ds := init + [DigitOf(c).value];
      CharOfDigitOf(c);
      AlphabetAt(DigitOf(c).value);
      assert ToChars(ds) == ToChars(init) + [c];
      assert s == s[..|s| - 1] + [c];
      if |s| > 1 {
        assert ds[0] == init[0];
      } else if ds[0] == 0 {
        assert c == CharOf(0);
      }
    }
  }

  /** The other direction: every alphabet string that does not start with `1` (the
      zero digit) is the untruncated encoding of what it decodes to. */
  lemma EncodeDecoded(s: string)
    requires forall i | 0 <= i < |s| :: InAlphabet(s[i])
    requires s == [] || s[0] != '1'
    ensures Decode(s).Some? && FullEncoding(Decode(s).value) == s
  {
    var ds := SpelledDigits(s);
    DigitsOfValue(ds);
    DecodeToChars(ds);
  }

  /** A 32-bit number has at most six base-58 digits. */
  lemma FullEncodingLength(num: nat)
    requires num < EntropyRange
    ensures |FullEncoding(num)| <= 6
  {
    DigitsLength(num, 6);
    assert Pow(58, 6) == 38068692544;
  }

  /** Every character of an encoding is in the alphabet, and a nonzero number's
      encoding does not start with the zero digit `1`. */
  lemma FullEncodingChars(num: nat)
    ensures forall i | 0 <= i < |FullEncoding(num)| :: InAlphabet(FullEncoding(num)[i])
    ensures num > 0 ==> FullEncoding(num)[0] != '1'
  {
    var full := FullEncoding(num);
    forall i | 0 <= i < |full|
      ensures InAlphabet(full[i])
    {
      AlphabetAt(Digits(num)[i]);
      DigitOfCharOf(Digits(num)[i]);
    }
    if num > 0 {
      AlphabetAt(Digits(num)[0]);
      DigitOfCharOf(Digits(num)[0]);
      assert DigitOf(full[0]) != Some(0);
    }
  }

  /** The sample ID for `num`: its encoding cut to the first `IdLength` characters. */
  function Encode(num: nat): (id: string)
    requires num < EntropyRange
    ensures |id| <= IdLength
    ensures forall i | 0 <= i < |id| :: InAlphabet(id[i])
    ensures id == [] <==> num == 0
    ensures id != [] ==> id[0] != '1'
  {
    var full := FullEncoding(num);
    FullEncodingChars(num);
    Take(full, IdLength)
  }

  /** The ID spells the leading digits of `num`. */
  lemma EncodeSpellsLeadingDigits(num: nat)
    requires num < EntropyRange
    ensures |Encode(num)| <= |Digits(num)|
    ensures Encode(num) == ToChars(Digits(num)[..|Encode(num)|])
  {
    var ds := Digits(num);
    var k := |Encode(num)|;
    assert Encode(num) == ToChars(ds)[..k];
  }

  /** The ID keeps exactly the first three digits' characters, or all of them when the
      number has fewer. */
  lemma EncodeLength(num: nat)
    requires num < EntropyRange
    ensures |Encode(num)| == if |Digits(num)| < IdLength then |Digits(num)| else IdLength
  {
  }

  /** The ID keeps the most significant digits: read back, it is `num` divided by 58 to
      the number of dropped digits, rounded down; with three or fewer digits nothing is dropped. */
  lemma EncodeKeepsLeadingDigits(num: nat) returns (v: nat, dropped: nat)
    requires num < EntropyRange
    ensures Decode(Encode(num)) == Some(v)
    ensures dropped == |FullEncoding(num)| - |Encode(num)|
    ensures v * Pow(58, dropped) <= num < (v + 1) * Pow(58, dropped)
    ensures |FullEncoding(num)| <= IdLength ==> dropped == 0 && v == num
  {
    var ds := Digits(num);
    var k := |Encode(num)|;
    assert k <= |ds| && Decode(Encode(num)) == Some(Value(ds[..k])) by {
      EncodeSpellsLeadingDigits(num);
      DecodeToChars(ds[..k]);
    }
    dropped := |ds| - k;
    v := LeadingValue(ds, k);
    assert Value(ds) == num by {
      ValueOfDigits(num);
    }
    if |ds| <= IdLength {
      assert ds[..k] == ds;
    }
  }

  /** The first `k` digits of `ds` are worth its value divided by 58 to the number of
      the others, rounded down. */
  lemma LeadingValue(ds: seq<Digit>, k: nat) returns (v: nat)
    requires k <= |ds|
    ensures v == Value(ds[..k])
    ensures v * Pow(58, |ds| - k) <= Value(ds) < (v + 1) * Pow(58, |ds| - k)
  {
    v := Value(ds[..k]);
    ValueSplit(ds, k);
    Bracket(Value(ds), v, Pow(58, |ds| - k), Value(ds[k..]));
  }

  lemma Bracket(n: nat, v: nat, p: nat, low: nat)
    requires n == v * p + low && low < p
    ensures v * p <= n < (v + 1) * p
  {
    assert (v + 1) * p == v * p + p;
  }

  /** Three characters cannot tell every 32-bit number apart: 58^5 and 58^5 + 1 get the same ID. */
  lemma EncodeCollides()
    ensures Encode(656356768) == Encode(656356769) == "211"
  {
    LeadingDigitsOfPow5(0);
    LeadingDigitsOfPow5(1);
  }

  /** 58^5 + low, for a digit `low`, is written `1` followed by four `0`s and `low`. */
  lemma LeadingDigitsOfPow5(low: Digit)
    ensures Digits(656356768 + low) == [1, 0, 0, 0, 0, low]
    ensures Encode(656356768 + low) == "211"
  {
    var n := 656356768 + low;
    assert n / 58 == 11316496 && n % 58 == low;
    assert Digits(1) == [1];
    assert Digits(58) == Digits(1) + [0];
    assert Digits(3364) == Digits(58) + [0];
    assert Digits(195112) == Digits(3364) + [0];
    assert Digits(11316496) == Digits(195112) + [0];
    assert Digits(n) == Digits(11316496) + [low];
    var ds := [1, 0, 0, 0, 0, low];
    assert Encode(n) == ToChars(ds)[..IdLength];
    AlphabetAt(1);
    AlphabetAt(0);
  }

  // ---------------------------------------------------------------------------
  // The loop as written

  /** `get_random_sample_hash` with the random bytes passed in. */
  method SampleHash(entropy: seq<Byte>) returns (id: string)
    requires |entropy| == EntropyBytes
    ensures FromBigEndian(entropy) < EntropyRange
    ensures id == Encode(FromBigEndian(entropy))
  {
    FourBytesRange();
    var num := FromBigEndian(entropy);
    var hash: seq<char> := [];
    var n := num;
    while n > 0
      invariant FullEncoding(n) + Reverse(hash) == FullEncoding(num)
      decreases n
    {
      var q, r := n / 58, n % 58;
      assert FullEncoding(n) == FullEncoding(q) + [Alphabet[r]];
      assert Reverse(hash + [Alphabet[r]]) == [Alphabet[r]] + Reverse(hash);
      hash := hash + [Alphabet[r]];
      n := q;
    }
    var joined := Reverse(hash);
    id := if |joined| <= IdLength then joined else joined[..IdLength];
  }
}
