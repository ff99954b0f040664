/**
 Base58Check, as the wallet's Deriver.kt reads and writes it. SHA-256 is a parameter: any
 function from bytes to 32 bytes.
 */
module Base58 {
  import opened Prelude
  import Radix

  type Digest = d: Bytes | |d| == 32 witness Fill(32, 0)
  type Sha256 = Bytes -> Digest

  datatype Error =
    | InvalidBase58
    | TooShort
    | BadChecksum
    | RangeError          // copyOfRange(4, size) of fewer than four bytes
    | NotExtendedPubkey
    | DescriptorRejected
    | DerivationFailed    // deriveAddress throws

  /** `n` consecutive characters. */
  function Span(first: char, n: nat): (s: string)
    requires first as int + n <= 128
    ensures |s| == n
    ensures forall i :: 0 <= i < n ==> s[i] as int == first as int + i
  {
    seq(n, i requires 0 <= i < n => (first as int + i) as char)
  }

  /** The 58 alphanumerics without '0', 'I', 'O' and 'l', in character order. */
  function Alphabet(): (a: string)
    ensures |a| == 58 && a[0] == '1'
    ensures forall i, j :: 0 <= i < j < 58 ==> a[i] < a[j]
  {
    Span('1', 9) + Span('A', 8) + Span('J', 5) + Span('P', 11) + Span('a', 11) + Span('m', 14)
  }

  lemma AlphabetSpelled()
    ensures Alphabet() == "123456789" + "ABCDEFGH" + "JKLMN" + "PQRSTUVWXYZ" + "abcdefghijk" + "mnopqrstuvwxyz"
  {
  }

  // ---------------------------------------------------------------- characters and digits

  /** `String.indexOf`: the first position of `c`, or -1. */
  function IndexOf(s: string, c: char): (i: int)
    ensures -1 <= i < |s|
    ensures i == -1 <==> c !in s
    ensures 0 <= i ==> s[i] == c && c !in s[..i]
  {
    if s == [] then -1
    else if s[0] == c then 0
    else
      var i := IndexOf(s[1..], c);
      assert 0 <= i ==> s[..i + 1] == [s[0]] + s[1..][..i];
      if i < 0 then -1 else i + 1
  }

  predicate AllInAlphabet(s: string) {
    forall i :: 0 <= i < |s| ==> s[i] in Alphabet()
  }

  function DigitsOf(s: string): (ds: seq<nat>)
    requires AllInAlphabet(s)
    ensures |ds| == |s| && Radix.AllDigits(ds, 58)
  {
    seq(|s|, i requires 0 <= i < |s| => IndexOf(Alphabet(), s[i]) as nat)
  }

  function Text(ds: seq<nat>): (s: string)
    requires Radix.AllDigits(ds, 58)
    ensures |s| == |ds|
    ensures AllInAlphabet(s)
  {
    seq(|ds|, i requires 0 <= i < |ds| => Alphabet()[ds[i]])
  }

  lemma IndexOfAlphabet(d: nat)
    requires d < 58
    ensures IndexOf(Alphabet(), Alphabet()[d]) == d
  {
    var i := IndexOf(Alphabet(), Alphabet()[d]);
    assert Alphabet()[i] == Alphabet()[d];
  }

  lemma DigitsOfText(ds: seq<nat>)
    requires Radix.AllDigits(ds, 58)
    ensures DigitsOf(Text(ds)) == ds
  {
    forall i | 0 <= i < |ds| ensures DigitsOf(Text(ds))[i] == ds[i] {
      IndexOfAlphabet(ds[i]);
    }
  }

  lemma TextOfDigits(s: string)
    requires AllInAlphabet(s)
    ensures Text(DigitsOf(s)) == s
  {
  }

  lemma LeadingOnes(s: string)
    requires AllInAlphabet(s)
    ensures LeadingCount(DigitsOf(s), 0) == LeadingCount(s, '1')
  {
    var n := LeadingCount(s, '1');
    var ds := DigitsOf(s);
    forall i | 0 <= i < |s| ensures ds[i] == 0 <==> s[i] == '1' {
      IndexOfAlphabet(0);
    }
    assert forall i :: 0 <= i < n ==> s[i] == s[..n][i];
    assert ds[..n] == Fill(n, 0);
    LeadingCountIs(ds, 0, n);
  }

  // ---------------------------------------------------------------- BigInteger

  /** `BigInteger.toByteArray` of a non-negative number: two's complement, big-endian, shortest. */
  function ToByteArray(n: nat): (bs: Bytes)
    ensures |bs| >= 1 && bs[0] < 128
  {
    if n < 128 then [n] else ToByteArray(n / 256) + [n % 256]
  }

  /** Dropping one leading zero byte, where there is one. */
  function DropSign(bs: Bytes): Bytes {
    if bs != [] && bs[0] == 0 then bs[1..] else bs
  }

  /** The sign byte is the only zero byte `toByteArray` puts in front: what remains is the base-256 digits. */
  lemma {:induction false} SignByte(n: nat)
    ensures DropSign(ToByteArray(n)) == Radix.Digits(n, 256)
    ensures ToByteArray(n)[0] == 0 ==> n == 0 || Radix.Digits(n, 256)[0] >= 128
    decreases n
  {
    if n < 128 {
      if n > 0 {
        assert Radix.Digits(n / 256, 256) == [];
      }
    } else {
      SignByte(n / 256);
      var front := ToByteArray(n / 256);
      assert Radix.Digits(n, 256) == Radix.Digits(n / 256, 256) + [n % 256];
      if n < 256 {
        assert front == [0];
      }
    }
  }

  // ---------------------------------------------------------------- the format

  function Checksum(sha: Sha256, payload: Bytes): (c: Bytes)
    ensures |c| == 4
  {
    sha(sha(payload))[..4]
  }

  /** The bytes a string of alphabet characters stands for: leading '1's are zero bytes. */
  function Raw(s: string): Bytes
    requires AllInAlphabet(s)
  {
    Radix.Join(LeadingCount(s, '1'), Radix.Value(DigitsOf(s), 58), 256)
  }

  /** The string standing for `full`: leading zero bytes are '1's. */
  function Printed(full: Bytes): string {
    Text(Radix.Join(LeadingCount(full, 0), Radix.Value(full, 256), 58))
  }

  function Encoded(sha: Sha256, payload: Bytes): string {
    Printed(payload + Checksum(sha, payload))
  }

  function Decoded(sha: Sha256, s: string): Result<Bytes, Error> {
    if !AllInAlphabet(s) then Err(InvalidBase58)
    else
      var full := Raw(s);
      if |full| < 4 then Err(TooShort)
      else
        var payload := full[..|full| - 4];
        if Checksum(sha, payload) == full[|full| - 4..] then Ok(payload) else Err(BadChecksum)
  }

  lemma BytesAreDigits(bs: Bytes)
    ensures Radix.AllDigits(bs, 256)
  {
  }

  /** Reading back what was printed. */
  lemma RawOfPrinted(full: Bytes)
    ensures AllInAlphabet(Printed(full))
    ensures Raw(Printed(full)) == full
  {
    hide Alphabet, Radix.Value, Radix.Digits, DigitsOf, LeadingCount;
    var z, n := LeadingCount(full, 0), Radix.Value(full, 256);
    PrintedParts(z, n);
    BytesAreDigits(full);
    Radix.JoinSplit(full, 256);
  }

  lemma PrintedParts(zeros: nat, n: nat)
    ensures var s := Text(Radix.Join(zeros, n, 58));
      LeadingCount(s, '1') == zeros && Radix.Value(DigitsOf(s), 58) == n
  {
    hide Alphabet, Radix.Value, Radix.Digits, DigitsOf, LeadingCount;
    var ds := Radix.Join(zeros, n, 58);
    DigitsOfText(ds);
    LeadingOnes(Text(ds));
    Radix.SplitJoin(zeros, n, 58);
  }

  /** Printing back what was read. */
  lemma PrintedOfRaw(s: string)
    requires AllInAlphabet(s)
    ensures Printed(Raw(s)) == s
  {
    hide Alphabet, Radix.Value, Radix.Digits, DigitsOf, LeadingCount;
    var ds := DigitsOf(s);
    var z, n := LeadingCount(s, '1'), Radix.Value(ds, 58);
    assert LeadingCount(Raw(s), 0) == z && Radix.Value(Raw(s), 256) == n by {
      Radix.SplitJoin(z, n, 256);
    }
    assert Radix.Join(z, n, 58) == ds by {
      LeadingOnes(s);
      Radix.JoinSplit(ds, 58);
    }
    TextOfDigits(s);
  }

  lemma EncodeThenDecode(sha: Sha256, payload: Bytes)
    ensures Decoded(sha, Encoded(sha, payload)) == Ok(payload)
  {
    var sum := Checksum(sha, payload);
    var full := payload + sum;
    RawOfPrinted(full);
    hide Raw, Printed, Checksum;
    assert full[..|full| - 4] == payload && full[|full| - 4..] == sum;
  }

  lemma DecodeThenEncode(sha: Sha256, s: string)
    requires Decoded(sha, s).Ok?
    ensures Encoded(sha, Decoded(sha, s).value) == s
  {
    PrintedOfRaw(s);
    hide Raw, Printed, Checksum;
    var raw := Raw(s);
    assert raw == raw[..|raw| - 4] + raw[|raw| - 4..];
  }

  /** The encoding stands for the payload followed by the first four bytes of its double hash. */
  lemma EncodedBytes(sha: Sha256, payload: Bytes)
    ensures AllInAlphabet(Encoded(sha, payload))
    ensures Raw(Encoded(sha, payload)) == payload + sha(sha(payload))[..4]
  {
    RawOfPrinted(payload + sha(sha(payload))[..4]);
  }

  /** What each string decodes to, from the bytes it stands for. */
  lemma DecodesIffBytes(sha: Sha256, s: string, payload: Bytes)
    ensures Decoded(sha, s) == Ok(payload) <==> AllInAlphabet(s) && Raw(s) == payload + sha(sha(payload))[..4]
    ensures Decoded(sha, s) == Err(InvalidBase58) <==> exists i :: 0 <= i < |s| && s[i] !in Alphabet()
    ensures Decoded(sha, s) == Err(TooShort) <==> AllInAlphabet(s) && |Raw(s)| < 4
    ensures Decoded(sha, s).Err? ==> Decoded(sha, s).error in {InvalidBase58, TooShort, BadChecksum}
  {
    hide Raw, Alphabet;
    if AllInAlphabet(s) {
      var raw := Raw(s);
      var sum := sha(sha(payload))[..4];
      if raw == payload + sum {
        assert raw[..|raw| - 4] == payload && raw[|raw| - 4..] == sum;
      }
      if |raw| >= 4 {
        assert raw == raw[..|raw| - 4] + raw[|raw| - 4..];
      }
    }
  }

  lemma DigitsArePositions(s: string, i: nat)
    requires AllInAlphabet(s) && i < |s|
    ensures Alphabet()[DigitsOf(s)[i]] == s[i]
  {
    hide Alphabet;
  }

  /**
   The bytes of a string: as many leading zeros as it has leading '1's, then the same number in base 256 as
   the positions of its characters in the alphabet make in base 58.
   */
  lemma RawIsSameNumber(s: string)
    requires AllInAlphabet(s)
    ensures LeadingCount(Raw(s), 0) == LeadingCount(s, '1')
    ensures Radix.Value(Raw(s), 256) == Radix.Value(DigitsOf(s), 58)
  {
    hide Alphabet, DigitsOf, LeadingCount, Radix.Value, Radix.Join;
    Radix.SplitJoin(LeadingCount(s, '1'), Radix.Value(DigitsOf(s), 58), 256);
  }

  /**
   Decoding accepts exactly the encodings: a string decodes to a payload if and only if it is
   that payload's encoding.
   */
  lemma DecodesIffEncodes(sha: Sha256, s: string, payload: Bytes)
    ensures Decoded(sha, s) == Ok(payload) <==> s == Encoded(sha, payload)
  {
    EncodeThenDecode(sha, payload);
    if Decoded(sha, s) == Ok(payload) {
      DecodeThenEncode(sha, s);
    }
  }

  // ---------------------------------------------------------------- the code

  lemma EmptyValue(ds: seq<nat>)
    requires |ds| == 0
    ensures Radix.Value(ds, 58) == 0
  {
  }

  lemma NextDigit(s: string, k: nat)
    requires k < |s| && AllInAlphabet(s[..k]) && s[k] in Alphabet()
    ensures AllInAlphabet(s[..k + 1])
    ensures Radix.Value(DigitsOf(s[..k + 1]), 58)
         == Radix.Value(DigitsOf(s[..k]), 58) * 58 + IndexOf(Alphabet(), s[k])
  {
    hide Alphabet, Radix.Value, IndexOf;
    var d := IndexOf(Alphabet(), s[k]);
    assert s[..k + 1] == s[..k] + [s[k]];
    Radix.ValueSnoc(DigitsOf(s[..k]), d, 58);
    assert DigitsOf(s[..k + 1]) == DigitsOf(s[..k]) + [d];
  }

  lemma RawIs(s: string, zeros: nat, bytes: Bytes)
    requires AllInAlphabet(s) && zeros == LeadingCount(s, '1')
    requires bytes == DropSign(ToByteArray(Radix.Value(DigitsOf(s), 58)))
    ensures Fill(zeros, 0) + bytes == Raw(s)
  {
    hide Alphabet, Radix.Value, Radix.Digits, DigitsOf, LeadingCount, ToByteArray, DropSign;
    SignByte(Radix.Value(DigitsOf(s), 58));
  }

  method Base58CheckDecode(sha: Sha256, s: string) returns (r: Result<Bytes, Error>)
    ensures r == Decoded(sha, s)
  {
    hide Alphabet, Radix.Value, Raw, DigitsOf;
    var num := 0;
    assert Radix.Value(DigitsOf(s[..0]), 58) == 0 by { EmptyValue(DigitsOf(s[..0])); }
    for k := 0 to |s|
      invariant AllInAlphabet(s[..k])
      invariant num == Radix.Value(DigitsOf(s[..k]), 58)
    {
      var digit := IndexOf(Alphabet(), s[k]);
      if digit < 0 {
        assert !AllInAlphabet(s);
        return Err(InvalidBase58);
      }
      NextDigit(s, k);
      num := num * 58 + digit;
    }
    assert s[..|s|] == s;
    var bytes := ToByteArray(num);
    if |bytes| > 0 && bytes[0] == 0 {
      bytes := bytes[1..];
    }
    var leadingZeros := LeadingCount(s, '1');
    var full := Fill(leadingZeros, 0) + bytes;
    RawIs(s, leadingZeros, bytes);
    if |full| < 4 {
      return Err(TooShort);
    }
    var payload, checksum := full[..|full| - 4], full[|full| - 4..];
    var digest := sha(sha(payload));
    if digest[..4] != checksum {
      return Err(BadChecksum);
    }
    return Ok(payload);
  }

  lemma FirstInAlphabet()
    ensures Alphabet()[0] == '1'
  {
  }

  lemma PrintedDigits(zeros: nat, ds: seq<nat>)
    requires Radix.AllDigits(ds, 58)
    ensures Radix.AllDigits(Fill(zeros, 0) + ds, 58)
    ensures Text(Fill(zeros, 0) + ds) == Fill(zeros, '1') + Text(ds)
  {
    FirstInAlphabet();
    hide Alphabet, AllInAlphabet, Fill;
  }

  method Base58CheckEncode(sha: Sha256, payload: Bytes) returns (s: string)
    ensures s == Encoded(sha, payload)
  {
    hide Alphabet, LeadingCount, Radix.Value;
    var checksum := sha(sha(payload))[..4];
    var full := payload + checksum;
    var num := Radix.Value(full, 256);
    ghost var digits := Radix.Digits(num, 58);
    var sb := "";
    while num > 0
      invariant Text(digits) == Text(Radix.Digits(num, 58)) + Reverse(sb)
      decreases num
    {
      var q, r := num / 58, num % 58;
      sb := sb + [Alphabet()[r]];
      assert Radix.Digits(num, 58) == Radix.Digits(q, 58) + [r];
      assert Text(Radix.Digits(num, 58)) == Text(Radix.Digits(q, 58)) + [Alphabet()[r]];
      num := q;
    }
    var k := 0;
    ghost var body := sb;
    while k < |full| && full[k] == 0
      invariant k <= |full| && full[..k] == Fill(k, 0)
      invariant sb == body + Fill(k, '1')
    {
      sb := sb + ['1'];
      k := k + 1;
    }
    LeadingCountIs(full, 0, k);
    ReverseAppend(body, Fill(k, '1'));
    assert Reverse(Fill(k, '1')) == Fill(k, '1');
    PrintedDigits(k, digits);
    return Reverse(sb);
  }
}
