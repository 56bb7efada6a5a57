/** The Base58 codecs as the loops over digit buffers that they are, proved to compute the
    functions of `Base58`. */
module Base58Codec {
  import opened Basics
  import opened Options
  import opened Numerals
  import opened Base58

  // ---------- the carry loop ----------

  /** From a carry and a digit, the new digit and the new carry. */
  type Step = (nat, nat) -> (nat, nat)

  /** The step of the conversion that multiplies numerals of base b by mul. */
  ghost predicate Multiplies(f: Step, b: nat, mul: nat) {
    forall c: nat, d: nat :: f(c, d).0 < b && f(c, d).1 * b + f(c, d).0 == c + mul * d
  }

  function EncodeStep(carry: nat, d: nat): (nat, nat) { ((carry + 256 * d) % 58, (carry + 256 * d) / 58) }

  function DecodeStep(carry: nat, d: nat): (nat, nat) { ((carry + 58 * d) % 256, (carry + 58 * d) / 256) }

  lemma {:induction false} StepsMultiply()
    ensures Multiplies(EncodeStep, 58, 256) && Multiplies(DecodeStep, 256, 58)
  {
  }

  /** The digits a carry loop leaves, and the carry that is left over. */
  function Convert(f: Step, s: seq<nat>, carry: nat): (r: (seq<nat>, nat))
    ensures |r.0| == |s|
    decreases |s|
  {
    if s == [] then ([], carry) else
      var (x, c) := f(carry, s[|s| - 1]);
      var (t, c') := Convert(f, s[..|s| - 1], c);
      (t + [x], c')
  }

  lemma {:induction false} ConvertDigits(f: Step, b: nat, mul: nat, s: seq<nat>, carry: nat)
    requires Multiplies(f, b, mul)
    ensures Digits(b, Convert(f, s, carry).0)
    decreases |s|
  {
    if s != [] { ConvertDigits(f, b, mul, s[..|s| - 1], f(carry, s[|s| - 1]).1); }
  }

  lemma {:induction false} CarryStep(b: nat, mul: nat, u: nat, d: nat, carry: nat, q: nat, r: nat, c: nat, p: nat,
                                     w: nat)
    requires q * b + r == carry + mul * d && u * mul + q == c * p + w
    ensures (u * b + d) * mul + carry == c * (b * p) + (w * b + r)
  {
    assert (u * b + d) * mul == u * mul * b + mul * d;
    assert (u * mul + q) * b == u * mul * b + q * b;
    assert (c * p + w) * b == c * p * b + w * b;
    assert c * p * b == c * (b * p);
  }

  lemma {:induction false} ValAppend(b: nat, t: seq<nat>, d: nat)
    ensures Val(b, t + [d]) == Val(b, t) * b + d
  {
    assert (t + [d])[..|t|] == t;
  }

  /** By value, the conversion is one multiplication and one addition. */
  lemma {:induction false} ConvertVal(f: Step, b: nat, mul: nat, s: seq<nat>, carry: nat)
    requires Multiplies(f, b, mul)
    ensures var (t, c) := Convert(f, s, carry);
            Val(b, s) * mul + carry == c * Pow(b, |s|) + Val(b, t)
    decreases |s|
  {
    if s != [] {
      var front, d := s[..|s| - 1], s[|s| - 1];
      var (r, q) := f(carry, d);
      ConvertVal(f, b, mul, front, q);
      var (t, c) := Convert(f, front, q);
      CarryStep(b, mul, Val(b, front), d, carry, q, r, c, Pow(b, |front|), Val(b, t));
      ValAppend(b, t, r);
    }
  }

  lemma {:induction false} NoRoomNoCarry(carry: nat, p: nat, v: nat, total: nat)
    requires total == carry * p + v && total < p
    ensures carry == 0 && v == total
  {
    if carry > 0 { MulMonotone(1, p, carry, p); }
  }

  /** In a buffer with room for the result, nothing is left to carry: the program's assert. */
  lemma {:induction false} ConvertFits(f: Step, b: nat, mul: nat, s: seq<nat>, carry: nat)
    requires Multiplies(f, b, mul) && Val(b, s) * mul + carry < Pow(b, |s|)
    ensures Convert(f, s, carry).1 == 0
    ensures Digits(b, Convert(f, s, carry).0) && Val(b, Convert(f, s, carry).0) == Val(b, s) * mul + carry
  {
    var (t, c) := Convert(f, s, carry);
    ConvertDigits(f, b, mul, s, carry);
    ConvertVal(f, b, mul, s, carry);
    NoRoomNoCarry(c, Pow(b, |s|), Val(b, t), Val(b, s) * mul + carry);
  }

  /** With no carry, zeros stay as they are. */
  lemma {:induction false} ConvertZeros(f: Step, s: seq<nat>)
    requires f(0, 0) == (0, 0) && forall i :: 0 <= i < |s| ==> s[i] == 0
    ensures Convert(f, s, 0) == (s, 0)
    decreases |s|
  {
    if s != [] {
      ConvertZeros(f, s[..|s| - 1]);
      assert s[..|s| - 1] + [0] == s;
    }
  }

  lemma {:induction false} AllZeros(b: nat, s: seq<nat>)
    requires forall i :: 0 <= i < |s| ==> s[i] == 0
    ensures Val(b, s) == 0
    decreases |s|
  {
    if s != [] { AllZeros(b, s[..|s| - 1]); }
  }

  /** The loop has come down to place i: what is in front of it is untouched, and finishing
      from here gives what the whole conversion gives. */
  ghost predicate Converting(f: Step, ch: nat, s: seq<nat>, t: seq<nat>, i: nat, carry: nat) {
    && i <= |s| == |t| && s[..i] == t[..i]
    && Convert(f, s, ch).0 == Convert(f, s[..i], carry).0 + t[i..]
    && Convert(f, s, ch).1 == Convert(f, s[..i], carry).1
  }

  lemma {:induction false} ConvertingAll(f: Step, ch: nat, s: seq<nat>)
    ensures Converting(f, ch, s, s, |s|, ch)
  {
    assert s[..|s|] == s;
  }

  lemma {:induction false} ConvertingOne(f: Step, ch: nat, s: seq<nat>, t: seq<nat>, i: nat, carry: nat)
    requires i < |s| && Converting(f, ch, s, t, i + 1, carry)
    ensures t[i] == s[i] && Converting(f, ch, s, t[i := f(carry, s[i]).0], i, f(carry, s[i]).1)
  {
    assert t[..i + 1][i] == s[..i + 1][i];
    assert s[..i + 1][..i] == s[..i] && t[..i + 1][..i] == t[..i];
    var (x, c) := f(carry, s[i]);
    var r := Convert(f, s[..i], c);
    assert Convert(f, s[..i + 1], carry) == (r.0 + [x], r.1);
    assert r.0 + [x] + t[i + 1..] == r.0 + t[i := x][i..];
  }

  /** The loop may stop early: with no carry, zeros in front are what they were. */
  lemma {:induction false} ConvertingStops(f: Step, ch: nat, s: seq<nat>, t: seq<nat>, i: nat, carry: nat)
    requires Converting(f, ch, s, t, i, carry)
    requires i == 0 || (carry == 0 && f(0, 0) == (0, 0) && forall j :: 0 <= j < i ==> s[j] == 0)
    ensures Convert(f, s, ch) == (t, carry)
    ensures forall j :: 0 <= j < i ==> t[j] == s[j]
  {
    if i > 0 { ConvertZeros(f, s[..i]); }
    assert t == s[..i] + t[i..];
  }

  // ---------- encoding ----------

  /** b58 = b58 * 256 + ch. */
  method TakeByte(b58: array<nat>, ch: nat)
    requires Convert(EncodeStep, b58[..], ch).1 == 0
    modifies b58
    ensures b58[..] == Convert(EncodeStep, old(b58[..]), ch).0
  {
    ghost var was := b58[..];
    ConvertingAll(EncodeStep, ch, was);
    var carry := ch;
    var i := b58.Length;
    while i > 0
      invariant 0 <= i <= b58.Length && Converting(EncodeStep, ch, was, b58[..], i, carry)
    {
      i := i - 1;
      ghost var t := b58[..];
      ConvertingOne(EncodeStep, ch, was, t, i, carry);
      carry := carry + 256 * b58[i];
      b58[i] := carry % 58;
      assert b58[..] == t[i := carry % 58];
      carry := carry / 58;
    }
    ConvertingStops(EncodeStep, ch, was, b58[..], 0, carry);
    assert carry == 0;
  }

  method CountLeading<T(==)>(s: seq<T>, x: T) returns (k: nat)
    ensures k == Leading(s, x)
  {
    k := 0;
    while k < |s| && s[k] == x
      invariant k <= |s| && forall i :: 0 <= i < k ==> s[i] == x
    {
      k := k + 1;
    }
    LeadingIs(s, x, k);
  }

  /** Skips the zero digits of a buffer, from a place before which all are zero. */
  method SkipZeroes(a: array<nat>, start: nat) returns (it: nat)
    requires start <= a.Length && forall j :: 0 <= j < start ==> a[j] == 0
    ensures it <= a.Length && a[it..] == StripZeros(a[..])
  {
    it := start;
    while it < a.Length && a[it] == 0
      invariant it <= a.Length && forall j :: 0 <= j < it ==> a[j] == 0
    {
      it := it + 1;
    }
    StripPrefix(a[..], it);
    assert a[..][it..] == a[it..];
  }

  lemma {:induction false} StripPrefix(s: seq<nat>, k: nat)
    requires k <= |s| && forall j :: 0 <= j < k ==> s[j] == 0
    ensures StripZeros(s[k..]) == StripZeros(s)
    decreases k
  {
    if k == 0 {
      assert s[0..] == s;
    } else {
      StripPrefix(s, k - 1);
      assert s[k - 1..][1..] == s[k..];
    }
  }

  /** Reads the bytes of `tail`, which has no leading zero, into a fresh buffer. */
  method TakeBytes(tail: seq<nat>) returns (b58: array<nat>)
    requires Digits(256, tail)
    ensures fresh(b58) && Digits(58, b58[..]) && Val(58, b58[..]) == Val(256, tail)
  {
    b58 := new nat[|tail| * 138 / 100 + 1](_ => 0);
    AllZeros(58, b58[..]);
    for pos := 0 to |tail|
      invariant Digits(58, b58[..]) && Val(58, b58[..]) == Val(256, tail[..pos])
    {
      NextByte(tail, pos, b58[..]);
      TakeByte(b58, tail[pos]);
    }
    assert tail[..|tail|] == tail;
  }

  method Translate(digits: seq<nat>) returns (str: string)
    requires Digits(58, digits)
    ensures str == Chars(digits)
  {
    str := "";
    for i := 0 to |digits|
      invariant str == Chars(digits[..i])
    {
      AlphabetIs(digits[i]);
      str := str + [ALPHABET[digits[i]]];
    }
    assert digits[..|digits|] == digits;
  }

  method EncodeBase58(v: seq<nat>) returns (str: string)
    requires Digits(256, v)
    ensures str == Encode(v)
  {
    var zeroes := CountLeading(v, 0);
    var b58 := TakeBytes(v[zeroes..]);
    StripIsCanonical(58, b58[..]);
    var it := SkipZeroes(b58, 0);
    str := Translate(b58[it..]);
    str := Repeat('1', zeroes) + str;
  }

  lemma {:induction false} EncoderHasRoom(tail: seq<nat>, k: nat)
    requires Digits(256, tail) && k < |tail|
    ensures Val(256, tail[..k + 1]) == Val(256, tail[..k]) * 256 + tail[k]
    ensures Val(256, tail[..k + 1]) < Pow(58, |tail| * 138 / 100 + 1)
  {
    var t := tail[..k + 1];
    assert t[..k] == tail[..k];
    ValBelow(256, t);
    PowMonotone(256, k + 1, |tail|);
    Base58Room(|tail|);
  }

  // ---------- decoding ----------

  lemma {:induction false} NextByte(tail: seq<nat>, k: nat, buf: seq<nat>)
    requires Digits(256, tail) && k < |tail|
    requires |buf| == |tail| * 138 / 100 + 1 && Val(58, buf) == Val(256, tail[..k])
    ensures var (t, c) := Convert(EncodeStep, buf, tail[k]);
            c == 0 && Digits(58, t) && Val(58, t) == Val(256, tail[..k + 1])
  {
    EncoderHasRoom(tail, k);
    StepsMultiply();
    ConvertFits(EncodeStep, 58, 256, buf, tail[k]);
  }

  /** One step of the decoder's carry loop. */
  lemma NoStep()
    ensures DecodeStep(0, 0) == (0, 0)
  {
  }

  method TakeCharAt(b256: array<nat>, j: nat, carry: nat, ghost ch: nat, ghost was: seq<nat>) returns (carry': nat)
    requires j < b256.Length && Converting(DecodeStep, ch, was, b256[..], j + 1, carry)
    modifies b256
    ensures Converting(DecodeStep, ch, was, b256[..], j, carry')
  {
    ghost var t := b256[..];
    ConvertingOne(DecodeStep, ch, was, t, j, carry);
    var x := carry + 58 * b256[j];
    b256[j] := x % 256;
    assert b256[..] == t[j := x % 256];
    carry' := x / 256;
  }

  /** b256 = b256 * 58 + ch, touching no more than the last `length` bytes and what the
      carry still needs. */
  method TakeChar(b256: array<nat>, ch: nat, length: nat) returns (length': nat)
    requires Convert(DecodeStep, b256[..], ch).1 == 0
    requires length <= b256.Length && forall j :: 0 <= j < b256.Length - length ==> b256[j] == 0
    modifies b256
    ensures b256[..] == Convert(DecodeStep, old(b256[..]), ch).0
    ensures length' <= b256.Length && forall j :: 0 <= j < b256.Length - length' ==> b256[j] == 0
  {
    ghost var was := b256[..];
    ConvertingAll(DecodeStep, ch, was);
    hide *;
    var carry := ch;
    var i := 0;
    while (carry != 0 || i < length) && i < b256.Length
      invariant i <= b256.Length && Converting(DecodeStep, ch, was, b256[..], b256.Length - i, carry)
    {
      carry := TakeCharAt(b256, b256.Length - i - 1, carry, ch, was);
      i := i + 1;
    }
    assert DecodeStep(0, 0) == (0, 0) by { NoStep(); }
    ConvertingStops(DecodeStep, ch, was, b256[..], b256.Length - i, carry);
    length' := i;
  }

  /** Reads digits up to the first space; false at a character outside the alphabet. */
  method TakeChars(rest: string) returns (ok: bool, n: nat, b256: array<nat>, length: nat)
    ensures fresh(b256) && Digits(256, b256[..])
    ensures ok <==> InAlphabet(rest[..WordLength(rest)])
    ensures ok ==> n == WordLength(rest) && Val(256, b256[..]) == Val(58, Indices(rest[..n]))
    ensures length <= b256.Length && forall j :: 0 <= j < b256.Length - length ==> b256[j] == 0
  {
    b256 := new nat[|rest| * 733 / 1000 + 1](_ => 0);
    AllZeros(256, b256[..]);
    length := 0;
    n := 0;
    while n < |rest| && !IsSpace(rest[n])
      invariant n <= WordLength(rest) && Digits(256, b256[..])
      invariant b256.Length == |rest| * 733 / 1000 + 1
      invariant InAlphabet(rest[..n]) && Val(256, b256[..]) == Val(58, Indices(rest[..n]))
      invariant length <= b256.Length && forall j :: 0 <= j < b256.Length - length ==> b256[j] == 0
    {
      var ch := Find(ALPHABET, rest[n]);
      IndexOfIsFind(rest[n]);
      if ch == 58 {
        assert rest[..WordLength(rest)][n] == rest[n];
        return false, n, b256, length;
      }
      NextDigit(rest, n, b256[..]);
      length := TakeChar(b256, ch, length);
      n := n + 1;
    }
    ok := true;
  }

  lemma {:induction false} InAlphabetNext(rest: string, n: nat)
    requires n < |rest| && InAlphabet(rest[..n]) && IndexOf(rest[n]) < 58
    ensures InAlphabet(rest[..n + 1])
    ensures Indices(rest[..n + 1]) == Indices(rest[..n]) + [IndexOf(rest[n])]
  {
    var word := rest[..n + 1];
    forall i | 0 <= i < |word| ensures IndexOf(word[i]) < 58 {
      if i < n { assert rest[..n][i] == word[i]; }
    }
  }

  lemma {:induction false} NextDigit(rest: string, n: nat, buf: seq<nat>)
    requires n < |rest| && InAlphabet(rest[..n]) && IndexOf(rest[n]) < 58
    requires |buf| == |rest| * 733 / 1000 + 1 && Val(256, buf) == Val(58, Indices(rest[..n]))
    ensures InAlphabet(rest[..n + 1])
    ensures var (t, c) := Convert(DecodeStep, buf, IndexOf(rest[n]));
            c == 0 && Digits(256, t) && Val(256, t) == Val(58, Indices(rest[..n + 1]))
  {
    InAlphabetNext(rest, n);
    CharsOfIndices(rest[..n + 1]);
    DecoderTakes(Indices(rest[..n]), IndexOf(rest[n]), |rest|);
    StepsMultiply();
    ConvertFits(DecodeStep, 256, 58, buf, IndexOf(rest[n]));
  }

  lemma {:induction false} DecoderTakes(digits: seq<nat>, d: nat, n: nat)
    requires Digits(58, digits + [d]) && |digits| < n
    ensures Val(58, digits + [d]) == Val(58, digits) * 58 + d
    ensures Val(58, digits + [d]) < Pow(256, n * 733 / 1000 + 1)
  {
    var t := digits + [d];
    assert t[..|digits|] == digits;
    ValBelow(58, t);
    PowMonotone(58, |t|, n);
    Base256Room(n);
  }

  method SkipSpaces(s: string) returns (t: string)
    ensures t == DropSpaces(s)
  {
    t := s;
    while t != [] && IsSpace(t[0])
      invariant DropSpaces(t) == DropSpaces(s)
      decreases |t|
    {
      t := t[1..];
    }
  }

  lemma {:induction false} DropAll(s: string)
    ensures DropSpaces(s) == [] <==> AllSpaces(s)
  {
  }

  /** On a C string, which holds no NUL; None stands for the result false. */
  method DecodeBase58(s: string) returns (v: Option<seq<nat>>)
    ensures v == Decode(s)
  {
    var psz := SkipSpaces(s);
    var zeroes := CountLeading(psz, '1');
    var rest := psz[zeroes..];
    var ok, n, b256, length := TakeChars(rest);
    if !ok { return None; }
    var after := SkipSpaces(rest[n..]);
    DropAll(rest[n..]);
    if after != [] { return None; }
    StripIsCanonical(256, b256[..]);
    var it := SkipZeroes(b256, b256.Length - length);
    return Some(Repeat(0, zeroes) + b256[it..]);
  }

  /** The characters before the first NUL, which is what c_str() hands on. */
  function CStr(s: string): string { s[..Find(s, 0 as char)] }

  method DecodeBase58Str(str: string) returns (v: Option<seq<nat>>)
    ensures v == Decode(CStr(str))
    ensures v.Some? ==> Digits(256, v.value) && Encode(v.value) == Trim(CStr(str))
  {
    v := DecodeBase58(CStr(str));
    if v.Some? { EncodeDecode(CStr(str)); }
  }
}
