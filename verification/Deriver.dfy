/**
 Extended public keys in the wallet (Deriver.kt): the version swap, the prefix test and the
 derivation of the watched addresses. BDK is a pair of functions given from outside.
 */
module Deriver {
  import opened Prelude
  import opened Base58
  import Radix

  /** What BDK answers: whether it accepts a descriptor, and the address at an index, None if it throws. */
  datatype Bdk = Bdk(accepts: (string, bool) -> bool, address: (string, nat, bool) -> Option<string>)

  const PREFIXES: seq<string> := ["xpub", "ypub", "zpub", "tpub", "upub", "vpub"]
  const XPUB: Bytes := [0x04, 0x88, 0xb2, 0x1e]
  const TPUB: Bytes := [0x04, 0x35, 0x87, 0xcf]
  const RECEIVE_COUNT: nat := 20
  const CHANGE_COUNT: nat := 10

  predicate StartsWith(s: string, prefix: string) {
    |prefix| <= |s| && s[..|prefix|] == prefix
  }

  predicate IsExtendedPubkey(input: string) {
    (exists p :: p in PREFIXES && StartsWith(input, p)) && 100 <= |input| <= 120
  }

  // ---------------------------------------------------------------- convertVersion

  /** `convertVersion`: the payload with its first four bytes replaced. */
  function Converted(sha: Sha256, s: string, version: Bytes): Result<string, Error> {
    match Decoded(sha, s)
    case Err(e) => Err(e)
    case Ok(raw) => if |raw| < 4 then Err(RangeError) else Ok(Encoded(sha, version + raw[4..]))
  }

  method ConvertVersion(sha: Sha256, s: string, version: Bytes) returns (r: Result<string, Error>)
    ensures r == Converted(sha, s, version)
  {
    var raw := Base58CheckDecode(sha, s);
    if raw.Err? {
      return Err(raw.error);
    }
    if |raw.value| < 4 {
      return Err(RangeError);
    }
    var payload := raw.value[4..];
    var text := Base58CheckEncode(sha, version + payload);
    return Ok(text);
  }

  /** Exactly the first four payload bytes change. */
  lemma ConvertReplacesVersion(sha: Sha256, s: string, version: Bytes)
    requires Converted(sha, s, version).Ok?
    ensures Decoded(sha, s).Ok? && |Decoded(sha, s).value| >= 4
    ensures Decoded(sha, Converted(sha, s, version).value) == Ok(version + Decoded(sha, s).value[4..])
  {
    EncodeThenDecode(sha, version + Decoded(sha, s).value[4..]);
  }

  /** Of two conversions in a row only the last one shows. */
  lemma LastConversionWins(sha: Sha256, s: string, v1: Bytes, v2: Bytes)
    requires |v1| == 4 && Converted(sha, s, v1).Ok?
    ensures Converted(sha, Converted(sha, s, v1).value, v2) == Converted(sha, s, v2)
  {
    ConvertReplacesVersion(sha, s, v1);
    assert (v1 + Decoded(sha, s).value[4..])[4..] == Decoded(sha, s).value[4..];
  }

  /** Converting back to the version the string came with restores the string itself. */
  lemma ConvertBack(sha: Sha256, s: string, version: Bytes)
    requires |version| == 4 && Converted(sha, s, version).Ok?
    ensures Decoded(sha, s).Ok? && |Decoded(sha, s).value| >= 4
    ensures Converted(sha, Converted(sha, s, version).value, Decoded(sha, s).value[..4]) == Ok(s)
  {
    var raw := Decoded(sha, s).value;
    LastConversionWins(sha, s, version, raw[..4]);
    assert raw[..4] + raw[4..] == raw;
    DecodeThenEncode(sha, s);
  }

  // ---------------------------------------------------------------- what a converted key looks like

  lemma {:induction false} QuotientBetween(n: nat, b: nat, lo: nat, hi: nat)
    requires 2 <= b && lo * b <= n < hi * b
    ensures lo <= n / b < hi
  {
    Radix.Euclid(n, b);
    var q := n / b;
    if q < lo {
      Radix.MulMonotone(b, q + 1, lo);
    } else if hi <= q {
      Radix.MulMonotone(b, hi, q);
    }
  }

  /** A number between `head` and `head + 1` times a power of the base starts with the digits of `head`. */
  lemma {:induction false} LeadingDigits(n: nat, b: nat, head: seq<nat>, k: nat)
    requires 2 <= b && Radix.AllDigits(head, b) && head != [] && head[0] != 0
    requires Radix.Value(head, b) * Radix.Pow(b, k) <= n < (Radix.Value(head, b) + 1) * Radix.Pow(b, k)
    ensures |Radix.Digits(n, b)| == |head| + k && Radix.Digits(n, b)[..|head|] == head
    decreases k
  {
    hide Radix.Value, Radix.Digits;
    var h := Radix.Value(head, b);
    if k == 0 {
      assert n == h;
      Radix.DigitsOfValue(head, b);
    } else {
      var p := Radix.Pow(b, k - 1);
      Radix.MulShuffle(h, p, b);
      Radix.MulShuffle(h + 1, p, b);
      QuotientBetween(n, b, h * p, (h + 1) * p);
      LeadingDigits(n / b, b, head, k - 1);
      DigitsSnoc(n, b);
      hide *;
      var front := Radix.Digits(n / b, b);
      assert (front + [n % b])[..|head|] == front[..|head|];
    }
  }

  lemma DigitsSnoc(n: nat, b: nat)
    requires 2 <= b && n != 0
    ensures Radix.Digits(n, b) == Radix.Digits(n / b, b) + [n % b]
  {
  }

  // 58 to the power 107 and 256 to the power 78, by squaring
  const POW58_13: nat := 84055070416556869132288
  const POW58_26: nat := POW58_13 * POW58_13
  const POW58_52: nat := POW58_26 * POW58_26
  const POW58_107: nat := POW58_52 * POW58_52 * 195112
  const POW256_13: nat := 0x1_0000_0000_0000_0000_0000_0000_00
  const POW256_39: nat := POW256_13 * POW256_13 * POW256_13
  const POW256_78: nat := POW256_39 * POW256_39

  lemma Pow58()
    ensures Radix.Pow(58, 107) == POW58_107
  {
    assert Radix.Pow(58, 3) == 195112 && Radix.Pow(58, 6) == 38068692544;
    Radix.PowSum(58, 6, 7);
    Radix.PowSum(58, 13, 13);
    Radix.PowSum(58, 26, 26);
    Radix.PowSum(58, 52, 52);
    Radix.PowSum(58, 104, 3);
  }

  lemma Pow256()
    ensures Radix.Pow(256, 78) == POW256_78
  {
    assert Radix.Pow(256, 6) == 0x1_0000_0000_0000;
    Radix.PowSum(256, 6, 7);
    Radix.PowSum(256, 13, 13);
    Radix.PowSum(256, 26, 13);
    Radix.PowSum(256, 39, 39);
  }

  /** Four base-58 digits in front of 107 more, against four bytes in front of 78 more. */
  lemma PowersCompared()
    ensures 10892318 * Radix.Pow(58, 107) <= 0x0488b21e * Radix.Pow(256, 78)
    ensures (0x0488b21e + 1) * Radix.Pow(256, 78) <= (10892318 + 1) * Radix.Pow(58, 107)
    ensures 10111870 * Radix.Pow(58, 107) <= 0x043587cf * Radix.Pow(256, 78)
    ensures (0x043587cf + 1) * Radix.Pow(256, 78) <= (10111870 + 1) * Radix.Pow(58, 107)
  {
    Pow58();
    Pow256();
    hide Radix.Pow;
  }

  /** Block `x` of the given size holds `n`. */
  predicate InBlock(x: nat, size: nat, n: nat) {
    x * size <= n < (x + 1) * size
  }

  /** Block `h` of size `p` holds all of block `v` of size `q`. */
  predicate Encloses(h: nat, p: nat, v: nat, q: nat) {
    h * p <= v * q && (v + 1) * q <= (h + 1) * p
  }

  lemma Between(v: nat, p: nat, r: nat)
    requires r < p
    ensures InBlock(v, p, v * p + r)
  {
  }

  /** The value of four version bytes followed by 78 more. */
  lemma FullValue(version: Bytes, rest: Bytes)
    requires |version| == 4 && |rest| == 78
    ensures InBlock(Radix.Value(version, 256), Radix.Pow(256, 78), Radix.Value(version + rest, 256))
  {
    Radix.ValueConcat(version, rest, 256);
    BytesAreDigits(rest);
    Radix.ValueBound(rest, 256);
    hide *;
    Between(Radix.Value(version, 256), Radix.Pow(256, 78), Radix.Value(rest, 256));
  }

  /** Digits of four characters, written out. */
  lemma FourDigits(a: nat, b: nat, c: nat, d: nat, base: nat)
    ensures Radix.Value([a, b, c, d], base) == ((a * base + b) * base + c) * base + d
  {
    Radix.ValueSnoc([a, b, c], d, base);
    Radix.ValueSnoc([a, b], c, base);
    Radix.ValueSnoc([a], b, base);
    Radix.ValueSnoc([], a, base);
    assert [a, b, c] + [d] == [a, b, c, d] && [a, b] + [c] == [a, b, c] && [a] + [b] == [a, b] && [] + [a] == [a];
  }

  /** Four leading digits and 107 more print as 111 characters starting with the four. */
  lemma PrintedHead(full: Bytes, head: seq<nat>)
    requires full != [] && full[0] != 0 && |head| == 4 && Radix.AllDigits(head, 58) && head[0] != 0
    requires InBlock(Radix.Value(head, 58), Radix.Pow(58, 107), Radix.Value(full, 256))
    ensures |Printed(full)| == 111 && StartsWith(Printed(full), Text(head))
  {
    var n := Radix.Value(full, 256);
    LeadingDigits(n, 58, head, 107);
    LeadingCountIs(full, 0, 0);
    hide Alphabet, Radix.Value, Radix.Pow, Radix.Digits, LeadingCount;
    var ds := Radix.Digits(n, 58);
    assert Radix.Join(0, n, 58) == ds;
    forall i | 0 <= i < 4 ensures Text(ds)[i] == Text(head)[i] {
      assert ds[i] == ds[..4][i];
    }
    assert Text(ds)[..4] == Text(head);
  }

  const XPUB_HEAD: seq<nat> := [55, 47, 52, 34]
  const TPUB_HEAD: seq<nat> := [51, 47, 52, 34]

  lemma HeadsSpelled()
    ensures Text(XPUB_HEAD) == "xpub" && Text(TPUB_HEAD) == "tpub"
  {
    var a := Alphabet();
    assert a[55] == 'x' && a[51] == 't' && a[47] == 'p' && a[52] == 'u' && a[34] == 'b';
  }

  lemma HeadValues()
    ensures Radix.Value(XPUB_HEAD, 58) == 10892318 && Radix.Value(XPUB, 256) == 0x0488b21e
    ensures Radix.Value(TPUB_HEAD, 58) == 10111870 && Radix.Value(TPUB, 256) == 0x043587cf
  {
    FourDigits(55, 47, 52, 34, 58);
    FourDigits(51, 47, 52, 34, 58);
    FourDigits(0x04, 0x88, 0xb2, 0x1e, 256);
    FourDigits(0x04, 0x35, 0x87, 0xcf, 256);
  }

  lemma SandwichedProduct(h: nat, p: nat, v: nat, q: nat, n: nat)
    requires Encloses(h, p, v, q) && InBlock(v, q, n)
    ensures InBlock(h, p, n)
  {
  }

  /** A version whose range of values lies inside the range of a four-digit head prints with that head. */
  lemma VersionShape(version: Bytes, head: seq<nat>, rest: Bytes)
    requires |version| == 4 && version[0] != 0 && |rest| == 78
    requires |head| == 4 && Radix.AllDigits(head, 58) && head[0] != 0
    requires Encloses(Radix.Value(head, 58), Radix.Pow(58, 107), Radix.Value(version, 256), Radix.Pow(256, 78))
    ensures |Printed(version + rest)| == 111 && StartsWith(Printed(version + rest), Text(head))
  {
    FullValue(version, rest);
    hide *;
    SandwichedProduct(Radix.Value(head, 58), Radix.Pow(58, 107), Radix.Value(version, 256), Radix.Pow(256, 78),
                      Radix.Value(version + rest, 256));
    PrintedHead(version + rest, head);
  }

  /**
   A 78-byte extended key converted to the xpub (tpub) version is 111 characters starting with
   "xpub" ("tpub"), whatever key it was and whatever its checksum: the wallet recognises it.
   */
  lemma ConvertedShape(sha: Sha256, s: string, mainnet: bool)
    requires Decoded(sha, s).Ok? && |Decoded(sha, s).value| == 78
    ensures var r := Converted(sha, s, if mainnet then XPUB else TPUB);
      r.Ok? && |r.value| == 111 && StartsWith(r.value, if mainnet then "xpub" else "tpub")
      && AllInAlphabet(r.value) && IsExtendedPubkey(r.value)
  {
    var version := if mainnet then XPUB else TPUB;
    var tail := Decoded(sha, s).value[4..];
    hide Printed, Checksum, Decoded, Alphabet;
    var sum := Checksum(sha, version + tail);
    ShapeOf(version + tail + sum, mainnet);
  }

  lemma HeadFits(mainnet: bool)
    ensures var v, h := Radix.Value(if mainnet then XPUB else TPUB, 256), Radix.Value(if mainnet then XPUB_HEAD else TPUB_HEAD, 58);
      var q, p := Radix.Pow(256, 78), Radix.Pow(58, 107);
      Encloses(h, p, v, q)
  {
    HeadValues();
    PowersCompared();
    hide Radix.Value, Radix.Pow;
  }

  lemma ShapeOf(full: Bytes, mainnet: bool)
    requires |full| == 82 && full[..4] == if mainnet then XPUB else TPUB
    ensures |Printed(full)| == 111 && StartsWith(Printed(full), if mainnet then "xpub" else "tpub")
    ensures AllInAlphabet(Printed(full)) && IsExtendedPubkey(Printed(full))
  {
    hide Printed, Alphabet, Radix.Value, Radix.Pow, Text, Encloses;
    var head := if mainnet then XPUB_HEAD else TPUB_HEAD;
    var p := if mainnet then "xpub" else "tpub";
    HeadFits(mainnet);
    HeadsSpelled();
    assert full == full[..4] + full[4..];
    VersionShape(full[..4], head, full[4..]);
    RawOfPrinted(full);
    assert p in PREFIXES by {
      assert PREFIXES[0] == "xpub" && PREFIXES[3] == "tpub";
    }
  }

  // ---------------------------------------------------------------- deriveAddresses

  /** `Char.isWhitespace`. */
  predicate IsWhitespace(c: char) {
    var n := c as int;
    0x09 <= n <= 0x0d || 0x1c <= n <= 0x20 || n == 0xa0 || n == 0x1680 || 0x2000 <= n <= 0x200a
    || n == 0x2028 || n == 0x2029 || n == 0x202f || n == 0x205f || n == 0x3000
  }

  /** `String.trim`. */
  function Trim(s: string): string {
    if s != [] && IsWhitespace(s[0]) then Trim(s[1..])
    else if s != [] && IsWhitespace(s[|s| - 1]) then Trim(s[..|s| - 1])
    else s
  }

  function Prefix(input: string): (p: Option<string>)
    ensures p.Some? ==> p.value in PREFIXES && StartsWith(input, p.value)
    ensures p.None? ==> forall q :: q in PREFIXES ==> !StartsWith(input, q)
  {
    FirstPrefix(input, PREFIXES)
  }

  function FirstPrefix(input: string, prefixes: seq<string>): (p: Option<string>)
    ensures p.Some? ==> p.value in prefixes && StartsWith(input, p.value)
    ensures p.None? ==> forall q :: q in prefixes ==> !StartsWith(input, q)
  {
    if prefixes == [] then None
    else if StartsWith(input, prefixes[0]) then Some(prefixes[0])
    else FirstPrefix(input, prefixes[1..])
  }

  /** The key in xpub or tpub form, and whether its scripts are wrapped in sh(). */
  function ScriptBranch(sha: Sha256, input: string): Result<(string, bool), Error> {
    match Prefix(input)
    case None => Err(NotExtendedPubkey)
    case Some(p) =>
      if p == "xpub" || p == "tpub" then Ok((input, false))
      else
        match Converted(sha, input, if p == "ypub" || p == "zpub" then XPUB else TPUB)
        case Err(e) => Err(e)
        case Ok(key) => Ok((key, p == "ypub" || p == "upub"))
  }

  function Descriptor(key: string, change: bool, wrapped: bool): string {
    var inner := "wpkh(" + key + (if change then "/1/*)" else "/0/*)");
    if wrapped then "sh(" + inner + ")" else inner
  }

  /** Twenty receive addresses, then ten change addresses, each in index order. */
  function Derived(bdk: Bdk, sha: Sha256, input: string, mainnet: bool): Result<seq<string>, Error> {
    match ScriptBranch(sha, input)
    case Err(e) => Err(e)
    case Ok((key, wrapped)) => Listed(bdk, Trim(key), wrapped, mainnet)
  }

  predicate Derivable(bdk: Bdk, desc: string, count: nat, mainnet: bool) {
    forall i :: 0 <= i < count ==> bdk.address(desc, i, mainnet).Some?
  }

  function Addresses(bdk: Bdk, desc: string, count: nat, mainnet: bool): (s: seq<string>)
    requires Derivable(bdk, desc, count, mainnet)
    ensures |s| == count
  {
    seq(count, i requires 0 <= i < count => bdk.address(desc, i, mainnet).value)
  }

  /** The first `count` addresses of a descriptor. */
  function Chain(bdk: Bdk, desc: string, count: nat, mainnet: bool): Result<seq<string>, Error> {
    if !bdk.accepts(desc, mainnet) then Err(DescriptorRejected)
    else if !Derivable(bdk, desc, count, mainnet) then Err(DerivationFailed)
    else Ok(Addresses(bdk, desc, count, mainnet))
  }

  /** The receive chain, then the change chain; the first failure is the result. */
  function Listed(bdk: Bdk, key: string, wrapped: bool, mainnet: bool): Result<seq<string>, Error> {
    match Chain(bdk, Descriptor(key, false, wrapped), RECEIVE_COUNT, mainnet)
    case Err(e) => Err(e)
    case Ok(receive) =>
      match Chain(bdk, Descriptor(key, true, wrapped), CHANGE_COUNT, mainnet)
      case Err(e) => Err(e)
      case Ok(change) => Ok(receive + change)
  }

  method DeriveAddresses(bdk: Bdk, sha: Sha256, input: string, mainnet: bool)
    returns (r: Result<seq<string>, Error>)
    ensures r == Derived(bdk, sha, input, mainnet)
  {
    var prefix := Prefix(input);
    if prefix.None? {
      return Err(NotExtendedPubkey);
    }
    var key, wrapped := input, false;
    if prefix.value != "xpub" && prefix.value != "tpub" {
      var c := ConvertVersion(sha, input, if prefix.value == "ypub" || prefix.value == "zpub" then XPUB else TPUB);
      if c.Err? {
        return Err(c.error);
      }
      key, wrapped := c.value, prefix.value == "ypub" || prefix.value == "upub";
    }
    hide Trim, Listed, Converted, Prefix;
    r := ListAddresses(bdk, Trim(key), wrapped, mainnet);
  }

  /** The two chains of a key: receive, then change. */
  method ListAddresses(bdk: Bdk, keyOriginFree: string, wrapped: bool, mainnet: bool)
    returns (r: Result<seq<string>, Error>)
    ensures r == Listed(bdk, keyOriginFree, wrapped, mainnet)
  {
    hide Descriptor, Chain;
    var out := [];
    ghost var c0, c1 := Chain(bdk, Descriptor(keyOriginFree, false, wrapped), RECEIVE_COUNT, mainnet),
                        Chain(bdk, Descriptor(keyOriginFree, true, wrapped), CHANGE_COUNT, mainnet);
    for chain := 0 to 2
      invariant chain == 0 ==> out == []
      invariant chain >= 1 ==> c0.Ok? && c0.value <= out
      invariant chain == 1 ==> out == c0.value
      invariant chain == 2 ==> c1.Ok? && out == c0.value + c1.value
    {
      var desc, count := Descriptor(keyOriginFree, chain == 1, wrapped), if chain == 0 then RECEIVE_COUNT else CHANGE_COUNT;
      var addresses := ListChain(bdk, desc, count, mainnet);
      if addresses.Err? {
        return Err(addresses.error);
      }
      out := out + addresses.value;
    }
    return Ok(out);
  }

  /** One chain: the descriptor is made, then each address derived. */
  method ListChain(bdk: Bdk, desc: string, count: nat, mainnet: bool) returns (r: Result<seq<string>, Error>)
    ensures r == Chain(bdk, desc, count, mainnet)
  {
    if !bdk.accepts(desc, mainnet) {
      return Err(DescriptorRejected);
    }
    var out := [];
    for i := 0 to count
      invariant Derivable(bdk, desc, i, mainnet) && out == Addresses(bdk, desc, i, mainnet)
    {
      var address := bdk.address(desc, i, mainnet);
      if address.None? {
        return Err(DerivationFailed);
      }
      out := out + [address.value];
    }
    return Ok(out);
  }

  /** `Trim` takes off whitespace at both ends, and all of it. */
  lemma {:induction false} TrimIs(s: string) returns (a: string, b: string)
    ensures s == a + Trim(s) + b && forall c :: c in a || c in b ==> IsWhitespace(c)
    ensures Trim(s) != [] ==> !IsWhitespace(Trim(s)[0]) && !IsWhitespace(Trim(s)[|Trim(s)| - 1])
    decreases |s|
  {
    if s != [] && IsWhitespace(s[0]) {
      a, b := TrimIs(s[1..]);
      a := [s[0]] + a;
    } else if s != [] && IsWhitespace(s[|s| - 1]) {
      a, b := TrimIs(s[..|s| - 1]);
      b := b + [s[|s| - 1]];
    } else {
      a, b := [], [];
    }
  }

  // ---------------------------------------------------------------- which addresses, written out

  /** The key in the form BDK takes, and whether its scripts are wrapped, by the first letters of the input. */
  ghost predicate KeyIs(sha: Sha256, input: string, key: string, wrapped: bool) {
    if StartsWith(input, "xpub") || StartsWith(input, "tpub") then key == input && !wrapped
    else if StartsWith(input, "ypub") || StartsWith(input, "zpub") then
      WithVersion(sha, input, [0x04, 0x88, 0xb2, 0x1e], key) && wrapped == StartsWith(input, "ypub")
    else if StartsWith(input, "upub") || StartsWith(input, "vpub") then
      WithVersion(sha, input, [0x04, 0x35, 0x87, 0xcf], key) && wrapped == StartsWith(input, "upub")
    else false
  }

  /** `key` is `s` with other version bytes. */
  ghost predicate WithVersion(sha: Sha256, s: string, version: Bytes, key: string) {
    && Decoded(sha, s).Ok? && |Decoded(sha, s).value| >= 4
    && Decoded(sha, key) == Ok(version + Decoded(sha, s).value[4..])
  }

  function Wrapped(script: string, wrapped: bool): string {
    if wrapped then "sh(" + script + ")" else script
  }

  /** BDK takes the script and gives `addresses` at the indices from 0 on. */
  ghost predicate Gives(bdk: Bdk, script: string, mainnet: bool, addresses: seq<string>) {
    bdk.accepts(script, mainnet)
    && forall i :: 0 <= i < |addresses| ==> bdk.address(script, i, mainnet) == Some(addresses[i])
  }

  lemma VersionIsConverted(sha: Sha256, s: string, version: Bytes, key: string)
    ensures WithVersion(sha, s, version, key) <==> Converted(sha, s, version) == Ok(key)
  {
    if Decoded(sha, s).Ok? && |Decoded(sha, s).value| >= 4 {
      DecodesIffEncodes(sha, key, version + Decoded(sha, s).value[4..]);
    }
    hide Encoded;
  }

  lemma PrefixIs(input: string, p: string)
    requires p in PREFIXES && StartsWith(input, p)
    ensures Prefix(input) == Some(p)
  {
    var q := Prefix(input).value;
    assert q[0] == p[0] ==> q == p by {
      assert "xpub"[0] == 'x' && "ypub"[0] == 'y' && "zpub"[0] == 'z';
      assert "tpub"[0] == 't' && "upub"[0] == 'u' && "vpub"[0] == 'v';
    }
    assert p[0] == input[..4][0] == q[0];
  }

  lemma KeyIsBranch(sha: Sha256, input: string, key: string, wrapped: bool)
    ensures KeyIs(sha, input, key, wrapped) <==> ScriptBranch(sha, input) == Ok((key, wrapped))
  {
    VersionIsConverted(sha, input, XPUB, key);
    VersionIsConverted(sha, input, TPUB, key);
    PrefixesSpelled(input, "xpub", 0);
    PrefixesSpelled(input, "ypub", 1);
    PrefixesSpelled(input, "zpub", 2);
    PrefixesSpelled(input, "tpub", 3);
    PrefixesSpelled(input, "upub", 4);
    PrefixesSpelled(input, "vpub", 5);
    SomePrefix(input);
    hide Converted, WithVersion, StartsWith, Prefix;
  }

  lemma PrefixesSpelled(input: string, p: string, i: nat)
    requires i < 6 && p == PREFIXES[i]
    ensures StartsWith(input, p) <==> Prefix(input) == Some(p)
  {
    assert p in PREFIXES;
    if StartsWith(input, p) {
      PrefixIs(input, p);
    }
  }

  lemma SomePrefix(input: string)
    ensures Prefix(input).Some? ==> Prefix(input).value in {"xpub", "ypub", "zpub", "tpub", "upub", "vpub"}
  {
  }

  lemma ChainGives(bdk: Bdk, script: string, count: nat, mainnet: bool, addresses: seq<string>)
    ensures Chain(bdk, script, count, mainnet) == Ok(addresses) <==> |addresses| == count && Gives(bdk, script, mainnet, addresses)
  {
    if |addresses| == count && Gives(bdk, script, mainnet, addresses) {
      assert Derivable(bdk, script, count, mainnet);
      assert Addresses(bdk, script, count, mainnet) == addresses;
    }
  }

  /**
   Deriving succeeds with exactly these thirty addresses: the twenty of the receive path and the ten of the
   change path, of the key that the input stands for, in scripts wrapped in sh() for ypub and upub only.
   */
  lemma DerivesExactly(bdk: Bdk, sha: Sha256, input: string, mainnet: bool, a: seq<string>)
    ensures Derived(bdk, sha, input, mainnet) == Ok(a) <==>
      |a| == 30 && exists key, wrapped ::
        KeyIs(sha, input, key, wrapped)
        && Gives(bdk, Wrapped("wpkh(" + Trim(key) + "/0/*)", wrapped), mainnet, a[..20])
        && Gives(bdk, Wrapped("wpkh(" + Trim(key) + "/1/*)", wrapped), mainnet, a[20..])
  {
    if branch :| ScriptBranch(sha, input) == Ok(branch) {
      KeyIsBranch(sha, input, branch.0, branch.1);
      ListedGives(bdk, Trim(branch.0), branch.1, mainnet, a);
    }
    forall key, wrapped | KeyIs(sha, input, key, wrapped) ensures ScriptBranch(sha, input) == Ok((key, wrapped)) {
      KeyIsBranch(sha, input, key, wrapped);
    }
    hide KeyIs, ScriptBranch, Gives, Listed, Wrapped, Trim;
  }

  lemma ListedGives(bdk: Bdk, key: string, wrapped: bool, mainnet: bool, a: seq<string>)
    ensures Listed(bdk, key, wrapped, mainnet) == Ok(a) <==>
      |a| == 30 && Gives(bdk, Wrapped("wpkh(" + key + "/0/*)", wrapped), mainnet, a[..20])
        && Gives(bdk, Wrapped("wpkh(" + key + "/1/*)", wrapped), mainnet, a[20..])
  {
    var d0, d1 := Wrapped("wpkh(" + key + "/0/*)", wrapped), Wrapped("wpkh(" + key + "/1/*)", wrapped);
    DescriptorSpelled(key, wrapped);
    var c0, c1 := Chain(bdk, d0, 20, mainnet), Chain(bdk, d1, 10, mainnet);
    if c0.Ok? && c1.Ok? {
      ChainGives(bdk, d0, 20, mainnet, c0.value);
      ChainGives(bdk, d1, 10, mainnet, c1.value);
      assert (c0.value + c1.value)[..20] == c0.value && (c0.value + c1.value)[20..] == c1.value;
    }
    if |a| == 30 {
      ChainGives(bdk, d0, 20, mainnet, a[..20]);
      ChainGives(bdk, d1, 10, mainnet, a[20..]);
      assert a == a[..20] + a[20..];
    }
    hide Chain, Gives, Descriptor, Wrapped;
  }

  /** An input with none of the six prefixes is no key. */
  lemma NoPrefixFails(bdk: Bdk, sha: Sha256, input: string, mainnet: bool)
    requires forall p :: p in {"xpub", "ypub", "zpub", "tpub", "upub", "vpub"} ==> !StartsWith(input, p)
    ensures Derived(bdk, sha, input, mainnet) == Err(NotExtendedPubkey)
  {
    SomePrefix(input);
    assert Prefix(input).None?;
  }

  /** Which failure comes first. */
  lemma DerivesOrFails(bdk: Bdk, sha: Sha256, input: string, mainnet: bool, key: string, wrapped: bool)
    requires KeyIs(sha, input, key, wrapped)
    ensures
      var d0, d1 := Wrapped("wpkh(" + Trim(key) + "/0/*)", wrapped), Wrapped("wpkh(" + Trim(key) + "/1/*)", wrapped);
      var r := Derived(bdk, sha, input, mainnet);
      if !bdk.accepts(d0, mainnet) then r == Err(DescriptorRejected)
      else if exists i :: 0 <= i < 20 && bdk.address(d0, i, mainnet).None? then r == Err(DerivationFailed)
      else if !bdk.accepts(d1, mainnet) then r == Err(DescriptorRejected)
      else if exists i :: 0 <= i < 10 && bdk.address(d1, i, mainnet).None? then r == Err(DerivationFailed)
      else r.Ok?
  {
    KeyIsBranch(sha, input, key, wrapped);
    DescriptorSpelled(Trim(key), wrapped);
    hide KeyIs, ScriptBranch, Descriptor, Wrapped, Trim, StartsWith, Addresses;
  }

  /** A key that cannot be converted fails as it does to decode, or for want of four bytes. */
  lemma ConversionFails(bdk: Bdk, sha: Sha256, input: string, mainnet: bool, p: string)
    requires p in {"ypub", "zpub", "upub", "vpub"} && StartsWith(input, p)
    ensures Decoded(sha, input).Err? ==> Derived(bdk, sha, input, mainnet) == Err(Decoded(sha, input).error)
    ensures Decoded(sha, input).Ok? && |Decoded(sha, input).value| < 4 ==> Derived(bdk, sha, input, mainnet) == Err(RangeError)
  {
    PrefixesSpelled(input, "ypub", 1);
    PrefixesSpelled(input, "zpub", 2);
    PrefixesSpelled(input, "upub", 4);
    PrefixesSpelled(input, "vpub", 5);
    hide Prefix, Decoded, StartsWith;
  }

  lemma DescriptorSpelled(key: string, wrapped: bool)
    ensures Descriptor(key, false, wrapped) == Wrapped("wpkh(" + key + "/0/*)", wrapped)
    ensures Descriptor(key, true, wrapped) == Wrapped("wpkh(" + key + "/1/*)", wrapped)
  {
    assert "wpkh(" + (key + "/0/*)") == "wpkh(" + key + "/0/*)";
  }

  lemma AlphabetHasNoWhitespace(s: string)
    requires AllInAlphabet(s)
    ensures Trim(s) == s
  {
    assert forall c :: c in Alphabet() ==> !IsWhitespace(c);
  }

  /**
   Deriving from any key that needs conversion is deriving from its converted form: for zpub and
   vpub the converted string, given to the wallet in its place, yields the same addresses; for
   ypub and upub the same key is listed with every script wrapped in sh().
   */
  lemma DeriveThroughConversion(bdk: Bdk, sha: Sha256, input: string, p: string, mainnet: bool)
    requires Prefix(input) == Some(p) && p != "xpub" && p != "tpub"
    requires Decoded(sha, input).Ok? && |Decoded(sha, input).value| == 78
    ensures var c := Converted(sha, input, if p == "ypub" || p == "zpub" then XPUB else TPUB);
      c.Ok? && IsExtendedPubkey(c.value)
      && ScriptBranch(sha, c.value) == Ok((c.value, false))
      && Derived(bdk, sha, input, mainnet) == Listed(bdk, c.value, p == "ypub" || p == "upub", mainnet)
      && (p == "zpub" || p == "vpub" ==> Derived(bdk, sha, input, mainnet) == Derived(bdk, sha, c.value, mainnet))
  {
    var main := p == "ypub" || p == "zpub";
    var c := Converted(sha, input, if main then XPUB else TPUB);
    ConvertedShape(sha, input, main);
    AlphabetHasNoWhitespace(c.value);
    hide Decoded, Prefix, Trim, Converted, AllInAlphabet, Listed;
    PrefixIs(c.value, if main then "xpub" else "tpub");
  }
}
