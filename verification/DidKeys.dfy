/** base58btc and did:key for Ed25519 keys (nth_dao/did_key.py). */
module DidKeys {
  import opened Prelude

  type Bytes = s: seq<nat> | InBase(s, 256)

  // ---------------------------------------------------------------- positional numerals

  predicate InBase(ds: seq<nat>, base: nat) {
    forall i :: 0 <= i < |ds| ==> ds[i] < base
  }

  /** The number a big-endian digit sequence stands for. */
  function Value(ds: seq<nat>, base: nat): nat {
    if ds == [] then 0 else Value(ds[..|ds| - 1], base) * base + ds[|ds| - 1]
  }

  /** The digits of a number, most significant first; none for zero. */
  function Digits(n: nat, base: nat): seq<nat>
    requires base > 1
  {
    if n == 0 then [] else
      Shrinks(n, base);
      Digits(n / base, base) + [n % base]
  }

  lemma Shrinks(n: nat, base: nat)
    requires base > 1 && n > 0
    ensures n / base < n
  {
    assert n == n / base * base + n % base;
    MulMonotone(2, base, n / base);
  }

  lemma MulMonotone(a: int, b: int, c: nat)
    ensures a <= b ==> a * c <= b * c
  {
  }

  function Zeros(k: nat): (ds: seq<nat>)
    ensures |ds| == k && forall i :: 0 <= i < k ==> ds[i] == 0
  {
    seq(k, _ => 0)
  }

  function LeadingZeros(ds: seq<nat>): (k: nat)
    ensures k <= |ds| && (forall i :: 0 <= i < k ==> ds[i] == 0) && (k < |ds| ==> ds[k] != 0)
  {
    if ds == [] || ds[0] != 0 then 0 else
      var k := LeadingZeros(ds[1..]);
      assert forall i :: 0 < i <= k ==> ds[i] == ds[1..][i - 1];
      1 + k
  }

  lemma {:induction false} ValueOfDigits(n: nat, base: nat)
    requires base > 1
    ensures Value(Digits(n, base), base) == n && InBase(Digits(n, base), base)
    ensures n > 0 ==> Digits(n, base) != [] && Digits(n, base)[0] != 0
    decreases n
  {
    if n > 0 {
      Shrinks(n, base);
      ValueOfDigits(n / base, base);
      var q, r := DivMod(n, base);
      DigitsSnoc(n, q, r, base, Digits(q, base));
    }
  }

  lemma DivMod(n: nat, base: nat) returns (q: nat, r: nat)
    requires base > 1
    ensures q == n / base && r == n % base && n == q * base + r && r < base
  {
    q, r := n / base, n % base;
  }

  lemma DigitsSnoc(n: nat, q: nat, r: nat, base: nat, ds: seq<nat>)
    requires n == q * base + r && r < base && n > 0 && Value(ds, base) == q && InBase(ds, base)
    requires q > 0 ==> ds != [] && ds[0] != 0
    requires q == 0 ==> ds == []
    ensures Value(ds + [r], base) == n && InBase(ds + [r], base) && (ds + [r])[0] != 0
  {
    ValueSnoc(ds, r, base);
  }

  lemma ValueSnoc(ds: seq<nat>, d: nat, base: nat)
    ensures Value(ds + [d], base) == Value(ds, base) * base + d
    ensures InBase(ds, base) && d < base ==> InBase(ds + [d], base)
  {
    assert (ds + [d])[..|ds|] == ds;
  }

  lemma DivideDigit(q: nat, base: nat, d: nat)
    requires d < base
    ensures (q * base + d) / base == q && (q * base + d) % base == d
  {
    var n := q * base + d;
    var e := n / base - q;
    assert n == n / base * base + n % base;
    assert (e + q) * base == e * base + q * base;
    assert e * base + n % base == d;
    MulMonotone(1, e, base);
    MulMonotone(e, -1, base);
  }

  lemma {:induction false} DigitsOfValue(ds: seq<nat>, base: nat)
    requires base > 1 && InBase(ds, base) && (ds == [] || ds[0] != 0)
    ensures Digits(Value(ds, base), base) == ds
    ensures ds != [] ==> Value(ds, base) > 0
  {
    if ds != [] {
      var init, last := ds[..|ds| - 1], ds[|ds| - 1];
      DigitsOfValue(init, base);
      DivideDigit(Value(init, base), base, last);
      if init != [] {
        MulMonotone(1, Value(init, base), base);
      }
      assert ds == init + [last];
    }
  }

  lemma {:induction false} ValueIgnoresZeros(k: nat, ds: seq<nat>, base: nat)
    ensures Value(Zeros(k) + ds, base) == Value(ds, base)
    decreases |ds|, k
  {
    var all := Zeros(k) + ds;
    if ds != [] {
      assert all[..|all| - 1] == Zeros(k) + ds[..|ds| - 1];
      ValueIgnoresZeros(k, ds[..|ds| - 1], base);
    } else if k > 0 {
      assert all[..|all| - 1] == Zeros(k - 1) + [];
      ValueIgnoresZeros(k - 1, [], base);
      assert Zeros(k - 1) + [] == all[..|all| - 1];
    }
  }

  /** Change of base that keeps the number of leading zeros. */
  function Convert(ds: seq<nat>, from: nat, to: nat): seq<nat>
    requires from > 1 && to > 1
  {
    Zeros(LeadingZeros(ds)) + Digits(Value(ds, from), to)
  }

  /** Converting there and back restores every digit sequence, leading zeros included. */
  lemma ConvertBack(ds: seq<nat>, from: nat, to: nat)
    requires from > 1 && to > 1 && InBase(ds, from)
    ensures InBase(Convert(ds, from, to), to) && Convert(Convert(ds, from, to), to, from) == ds
  {
    var k := LeadingZeros(ds);
    var core := ds[k..];
    assert ds == Zeros(k) + core;
    ValueIgnoresZeros(k, core, from);
    DigitsOfValue(core, from);
    var n := Value(core, from);
    ValueOfDigits(n, to);
    var out := Convert(ds, from, to);
    ValueIgnoresZeros(k, Digits(n, to), to);
    assert LeadingZeros(out) == k by {
      assert forall i :: 0 <= i < k ==> out[i] == 0;
      if n > 0 {
        assert out[k] == Digits(n, to)[0];
      }
    }
  }

  // ---------------------------------------------------------------- the alphabet

  const ALPHABET := "123456789" + "ABCDEFGH" + "JKLMN" + "PQRSTUVWXYZ" + "abcdefghijk" + "mnopqrstuvwxyz"

  function Letter(d: nat): char
    requires d < 58
  {
    if d < 9 then '1' + d as char
    else if d < 17 then 'A' + (d - 9) as char
    else if d < 22 then 'J' + (d - 17) as char
    else if d < 33 then 'P' + (d - 22) as char
    else if d < 44 then 'a' + (d - 33) as char
    else 'm' + (d - 44) as char
  }

  function Index(c: char): Option<nat> {
    if '1' <= c <= '9' then Some((c - '1') as nat)
    else if 'A' <= c <= 'H' then Some((c - 'A') as nat + 9)
    else if 'J' <= c <= 'N' then Some((c - 'J') as nat + 17)
    else if 'P' <= c <= 'Z' then Some((c - 'P') as nat + 22)
    else if 'a' <= c <= 'k' then Some((c - 'a') as nat + 33)
    else if 'm' <= c <= 'z' then Some((c - 'm') as nat + 44)
    else None
  }

  /** Letters and digit values correspond one to one. */
  lemma AlphabetIsExact(d: nat, c: char)
    ensures d < 58 ==> Index(Letter(d)) == Some(d)
    ensures Index(c).Some? ==> Index(c).value < 58 && Letter(Index(c).value) == c
  {
  }

  /** The digit letters are the Bitcoin alphabet in order. */
  lemma LettersSpellAlphabet(d: nat)
    requires d < 58
    ensures |ALPHABET| == 58 && ALPHABET[d] == Letter(d)
  {
    var a, b, c, e, f, g := "123456789", "ABCDEFGH", "JKLMN", "PQRSTUVWXYZ", "abcdefghijk", "mnopqrstuvwxyz";
    assert ALPHABET == a + b + c + e + f + g;
    if d < 9 { assert ALPHABET[d] == a[d]; }
    else if d < 17 { assert ALPHABET[d] == b[d - 9]; }
    else if d < 22 { assert ALPHABET[d] == c[d - 17]; }
    else if d < 33 { assert ALPHABET[d] == e[d - 22]; }
    else if d < 44 { assert ALPHABET[d] == f[d - 33]; }
    else { assert ALPHABET[d] == g[d - 44]; }
  }

  function Letters(ds: seq<nat>): (s: string)
    requires InBase(ds, 58)
    ensures |s| == |ds|
  {
    seq(|ds|, i requires 0 <= i < |ds| => Letter(ds[i]))
  }

  predicate InAlphabet(s: string) {
    forall i :: 0 <= i < |s| ==> Index(s[i]).Some?
  }

  function Indices(s: string): (ds: seq<nat>)
    requires InAlphabet(s)
    ensures |ds| == |s| && InBase(ds, 58)
  {
    seq(|s|, i requires 0 <= i < |s| => Index(s[i]).value)
  }

  lemma LettersRoundTrip(ds: seq<nat>, s: string)
    ensures InBase(ds, 58) ==> InAlphabet(Letters(ds)) && Indices(Letters(ds)) == ds
    ensures InAlphabet(s) ==> Letters(Indices(s)) == s
  {
    if InBase(ds, 58) {
      forall i | 0 <= i < |ds| ensures Index(Letters(ds)[i]) == Some(ds[i]) {
        AlphabetIsExact(ds[i], ' ');
      }
    }
    if InAlphabet(s) {
      forall i | 0 <= i < |s| ensures Letter(Indices(s)[i]) == s[i] {
        AlphabetIsExact(0, s[i]);
      }
    }
  }

  // ---------------------------------------------------------------- base58btc as the source computes it

  method CountLeading(ds: seq<nat>) returns (k: nat)
    ensures k == LeadingZeros(ds)
  {
    k := 0;
    while k < |ds| && ds[k] == 0
      invariant k <= |ds| && forall i :: 0 <= i < k ==> ds[i] == 0
    {
      k := k + 1;
    }
    LeadingIs(ds, k);
  }

  lemma {:induction false} LeadingIs(ds: seq<nat>, k: nat)
    requires k <= |ds| && (forall i :: 0 <= i < k ==> ds[i] == 0) && (k < |ds| ==> ds[k] != 0)
    ensures k == LeadingZeros(ds)
  {
    if k > 0 {
      LeadingIs(ds[1..], k - 1);
    }
  }

  lemma LettersConcat(a: seq<nat>, b: seq<nat>)
    requires InBase(a, 58) && InBase(b, 58)
    ensures Letters(a + b) == Letters(a) + Letters(b)
  {
  }

  /** The repeated divmod, building the text from its end. */
  method ToBase58(number: nat) returns (out: string)
    ensures InBase(Digits(number, 58), 58) && out == Letters(Digits(number, 58))
  {
    ValueOfDigits(number, 58);
    var num := number;
    ghost var ds: seq<nat> := [];
    out := "";
    while num > 0
      invariant InBase(ds, 58) && out == Letters(ds)
      invariant Digits(number, 58) == Digits(num, 58) + ds
      decreases num
    {
      Shrinks(num, 58);
      var rem := num % 58;
      assert Digits(num, 58) + ds == Digits(num / 58, 58) + ([rem] + ds);
      LettersConcat([rem], ds);
      num := num / 58;
      out := [Letter(rem)] + out;
      ds := [rem] + ds;
    }
  }

  /** base58btc text of a byte string. */
  method B58Encode(bytes: Bytes) returns (s: string)
    ensures s == Encoded(bytes)
  {
    ConvertBack(bytes, 256, 58);
    if bytes == [] {
      assert Convert(bytes, 256, 58) == [];
      return "";
    }
    var zeros := CountLeading(bytes);
    var out := ToBase58(Value(bytes, 256));
    LettersConcat(Zeros(zeros), Digits(Value(bytes, 256), 58));
    s := seq(zeros, _ => '1') + out;
    assert seq(zeros, _ => '1') == Letters(Zeros(zeros));
  }

  /** Python's `int.bit_length`. */
  function BitLength(n: nat): nat {
    if n == 0 then 0 else 1 + BitLength(n / 2)
  }

  /** Python's `int.to_bytes(len, "big")` for a number that fits. */
  function ToBytes(n: nat, len: nat): seq<nat> {
    if len == 0 then [] else ToBytes(n / 256, len - 1) + [n % 256]
  }

  lemma HalveFourTimes(n: nat)
    requires n >= 16
    ensures BitLength(n) == 4 + BitLength(n / 16)
  {
    var a, b, c := n / 2, n / 4, n / 8;
    assert a / 2 == b && b / 2 == c && c / 2 == n / 16;
    assert BitLength(n) == 1 + BitLength(a);
    assert BitLength(a) == 1 + BitLength(b);
    assert BitLength(b) == 1 + BitLength(c);
  }

  lemma SmallBitLength(n: nat)
    requires 0 < n < 16
    ensures 1 <= BitLength(n) <= 4
  {
    var a, b, c := n / 2, n / 4, n / 8;
    assert a / 2 == b && b / 2 == c && c / 2 == 0;
    assert BitLength(c) <= 1;
    assert BitLength(b) <= 2;
    assert BitLength(a) <= 3;
  }

  lemma BytesNeeded(n: nat)
    requires n > 0
    ensures (BitLength(n) + 7) / 8 == if n < 256 then 1 else 1 + (BitLength(n / 256) + 7) / 8
  {
    if n < 16 {
      SmallBitLength(n);
    } else {
      HalveFourTimes(n);
      if n < 256 {
        SmallBitLength(n / 16);
      } else {
        HalveFourTimes(n / 16);
        assert n / 16 / 16 == n / 256;
      }
    }
  }

  /** The byte length the decoder computes is exactly the number of base-256 digits. */
  lemma {:induction false} ToBytesIsMinimal(n: nat)
    ensures ToBytes(n, (BitLength(n) + 7) / 8) == Digits(n, 256)
    decreases n
  {
    if n > 0 {
      BytesNeeded(n);
      assert Digits(n, 256) == Digits(n / 256, 256) + [n % 256];
      if n >= 256 {
        ToBytesIsMinimal(n / 256);
      } else {
        assert ToBytes(n, 1) == ToBytes(n / 256, 0) + [n % 256];
      }
    }
  }

  /** Horner evaluation, refusing characters outside the alphabet. */
  method FromBase58(s: string) returns (r: Option<nat>)
    ensures r.Some? <==> InAlphabet(s)
    ensures r.Some? ==> r.value == Value(Indices(s), 58)
  {
    var num := 0;
    for i := 0 to |s|
      invariant InAlphabet(s[..i]) && num == Value(Indices(s[..i]), 58)
    {
      if Index(s[i]).None? {
        return None;
      }
      assert s[..i + 1] == s[..i] + [s[i]];
      assert Indices(s[..i + 1])[..i] == Indices(s[..i]);
      num := num * 58 + Index(s[i]).value;
    }
    assert s[..|s|] == s;
    return Some(num);
  }

  method B58Decode(s: string) returns (r: Result<seq<nat>>)
    ensures r.Ok? <==> InAlphabet(s)
    ensures r.Ok? ==> Decoded(s) == Some(r.value)
  {
    if s == "" {
      assert Convert(Indices(s), 58, 256) == [];
      return Ok([]);
    }
    var zeros := 0;
    while zeros < |s| && s[zeros] == '1'
      invariant zeros <= |s| && forall i :: 0 <= i < zeros ==> s[i] == '1'
    {
      zeros := zeros + 1;
    }
    var num := FromBase58(s);
    if num.None? {
      return Err("invalid base58 character");
    }
    LeadingOnes(s, zeros);
    ToBytesIsMinimal(num.value);
    var body: seq<nat> := if num.value == 0 then [] else ToBytes(num.value, (BitLength(num.value) + 7) / 8);
    r := Ok(Zeros(zeros) + body);
  }

  /** A leading '1' is a leading zero digit. */
  lemma LeadingOnes(s: string, zeros: nat)
    requires InAlphabet(s) && zeros <= |s| && (forall i :: 0 <= i < zeros ==> s[i] == '1') && (zeros < |s| ==> s[zeros] != '1')
    ensures LeadingZeros(Indices(s)) == zeros
  {
    assert forall i :: 0 <= i < |s| ==> (Indices(s)[i] == 0 <==> s[i] == '1');
    LeadingIs(Indices(s), zeros);
  }

  // ---------------------------------------------------------------- both directions

  function Encoded(bytes: Bytes): string {
    ConvertBack(bytes, 256, 58);
    Letters(Convert(bytes, 256, 58))
  }

  function Decoded(s: string): Option<seq<nat>> {
    if InAlphabet(s) then Some(Convert(Indices(s), 58, 256)) else None
  }

  /** Encode then decode is the identity on all byte strings, leading zeros included. */
  lemma DecodeUndoesEncode(bytes: Bytes)
    ensures Decoded(Encoded(bytes)) == Some(bytes)
  {
    ConvertBack(bytes, 256, 58);
    LettersRoundTrip(Convert(bytes, 256, 58), "");
  }

  /** Decode then encode is the identity on all texts over the alphabet, leading ones included. */
  lemma EncodeUndoesDecode(s: string)
    requires InAlphabet(s)
    ensures InBase(Decoded(s).value, 256) && Encoded(Decoded(s).value) == s
  {
    ConvertBack(Indices(s), 58, 256);
    LettersRoundTrip([], s);
  }

  // ---------------------------------------------------------------- did:key

  const DID_PREFIX := "did:key:"
  const MULTIBASE := "z"
  const MULTICODEC: seq<nat> := [0xed, 0x01]

  function EncodeDidKey(key: Bytes): (r: Result<string>)
    ensures r.Ok? <==> |key| == 32
  {
    if |key| != 32 then Err("Ed25519 pubkey must be 32 bytes")
    else Ok(DID_PREFIX + MULTIBASE + Encoded(MULTICODEC + key))
  }

  function DecodeDidKey(did: string): Result<seq<nat>> {
    if !(DID_PREFIX <= did) then Err("must start with did:key:")
    else
      var body := did[|DID_PREFIX|..];
      if !(MULTIBASE <= body) then Err("only base58btc multibase is supported")
      else
        match Decoded(body[|MULTIBASE|..])
        case None => Err("invalid base58 character")
        case Some(raw) =>
          if !(MULTICODEC <= raw) then Err("multicodec prefix must be Ed25519-pub")
          else
            var key := raw[|MULTICODEC|..];
            if |key| != 32 then Err("decoded pubkey must be 32 bytes") else Ok(key)
  }

  /** Every 32-byte key survives the round trip through its did:key string. */
  lemma KeyRoundTrip(key: Bytes)
    requires |key| == 32
    ensures EncodeDidKey(key).Ok? && DecodeDidKey(EncodeDidKey(key).value) == Ok(key)
    ensures var did := EncodeDidKey(key).value; "did:key:z" <= did && Decoded(did[9..]) == Some([0xed, 0x01] + key)
  {
    assert DID_PREFIX + MULTIBASE == "did:key:z";
    DecodeUndoesEncode(MULTICODEC + key);
    Unwrap(Encoded(MULTICODEC + key));
    assert (MULTICODEC + key)[2..] == key;
  }

  /** The two prefixes come off again. */
  lemma Unwrap(text: string)
    ensures var did := DID_PREFIX + MULTIBASE + text;
            DID_PREFIX <= did && MULTIBASE <= did[|DID_PREFIX|..] && did[|DID_PREFIX|..][|MULTIBASE|..] == text
  {
    assert DID_PREFIX + MULTIBASE + text == DID_PREFIX + (MULTIBASE + text);
    assert (MULTIBASE + text)[1..] == text;
  }

  /** The only string decode accepts for a key is the one encode produces. */
  lemma DidRoundTrip(did: string)
    requires DecodeDidKey(did).Ok?
    ensures InBase(DecodeDidKey(did).value, 256) && EncodeDidKey(DecodeDidKey(did).value) == Ok(did)
  {
    var body := did[|DID_PREFIX|..];
    var text := body[|MULTIBASE|..];
    EncodeUndoesDecode(text);
    var raw := Decoded(text).value;
    assert raw == MULTICODEC + raw[2..];
    assert body == MULTIBASE + text;
    assert did == DID_PREFIX + body == DID_PREFIX + MULTIBASE + text;
  }
}
