/** Base58Check, which appends the first four bytes of a hash, and the versioned data built
    on it.  The hash is a parameter. */
module Base58Check {
  import opened Options
  import opened Numerals
  import opened Base58
  import opened Base58Codec

  type Byte = x: nat | x < 256

  /** The first four bytes of the hash of a byte string. */
  type Hash4 = seq<nat> -> (Byte, Byte, Byte, Byte)

  function Checksum(h: Hash4, v: seq<nat>): (c: seq<nat>)
    ensures |c| == 4
  {
    [h(v).0, h(v).1, h(v).2, h(v).3]
  }

  function EncodeCheck(h: Hash4, v: seq<nat>): string { Encode(v + Checksum(h, v)) }

  /** Takes the checksum off, if it is there and right. */
  function Unseal(h: Hash4, v: seq<nat>): Option<seq<nat>> {
    if |v| >= 4 && Checksum(h, v[..|v| - 4]) == v[|v| - 4..] then Some(v[..|v| - 4]) else None
  }

  lemma UnsealIff(h: Hash4, w: seq<nat>, v: seq<nat>)
    ensures Unseal(h, w) == Some(v) <==> w == v + Checksum(h, v)
  {
    if w == v + Checksum(h, v) { assert w[..|w| - 4] == v && w[|w| - 4..] == Checksum(h, v); }
  }

  function DecodeCheck(h: Hash4, s: string): Option<seq<nat>> {
    var v := Decode(s);
    if v.Some? then Unseal(h, v.value) else None
  }

  lemma DecodeCheckEncodeCheck(h: Hash4, v: seq<nat>)
    requires Digits(256, v)
    ensures DecodeCheck(h, EncodeCheck(h, v)) == Some(v)
  {
    hide Encode, Decode;
    UnsealIff(h, v + Checksum(h, v), v);
    DecodeEncode(v + Checksum(h, v));
  }

  lemma EncodeCheckDecodeCheck(h: Hash4, s: string)
    requires DecodeCheck(h, s).Some?
    ensures Digits(256, DecodeCheck(h, s).value)
    ensures EncodeCheck(h, DecodeCheck(h, s).value) == Trim(s)
  {
    hide Encode, Decode;
    EncodeDecode(s);
    UnsealIff(h, Decode(s).value, DecodeCheck(h, s).value);
  }

  // ---------- versioned data ----------

  function Print(h: Hash4, version: seq<nat>, data: seq<nat>): string { EncodeCheck(h, version + data) }

  function Parse(h: Hash4, s: string, n: nat): Option<(seq<nat>, seq<nat>)> {
    var v := DecodeCheck(h, s);
    if v.Some? && |v.value| >= n then Some((v.value[..n], v.value[n..])) else None
  }

  lemma ParsePrint(h: Hash4, version: seq<nat>, data: seq<nat>)
    requires Digits(256, version + data)
    ensures Parse(h, Print(h, version, data), |version|) == Some((version, data))
  {
    hide Encode, Decode;
    DecodeCheckEncodeCheck(h, version + data);
  }

  lemma PrintParse(h: Hash4, s: string, n: nat)
    requires Parse(h, s, n).Some?
    ensures var (version, data) := Parse(h, s, n).value;
            |version| == n && Digits(256, version + data) && Print(h, version, data) == Trim(s)
  {
    hide Encode, Decode;
    EncodeCheckDecodeCheck(h, s);
    var v := DecodeCheck(h, s).value;
    assert v[..n] + v[n..] == v;
  }

  // ---------- the program's methods ----------

  method EncodeBase58Check(h: Hash4, v: seq<nat>) returns (str: string)
    requires Digits(256, v)
    ensures str == EncodeCheck(h, v)
  {
    var vch := v + Checksum(h, v);
    str := EncodeBase58(vch);
  }

  /** The output is emptied when the result is false. */
  method DecodeBase58Check(h: Hash4, s: string) returns (ok: bool, vch: seq<nat>)
    ensures ok <==> DecodeCheck(h, s).Some?
    ensures vch == if ok then DecodeCheck(h, s).value else []
  {
    var v := DecodeBase58(s);
    if v.None? || |v.value| < 4 { return false, []; }
    vch := v.value;
    if Checksum(h, vch[..|vch| - 4]) != vch[|vch| - 4..] { return false, []; }
    return true, vch[..|vch| - 4];
  }

  /** On a string only what is before the first NUL counts. */
  method DecodeBase58CheckStr(h: Hash4, str: string) returns (ok: bool, vch: seq<nat>)
    ensures ok <==> DecodeCheck(h, CStr(str)).Some?
    ensures vch == if ok then DecodeCheck(h, CStr(str)).value else []
    ensures ok ==> Digits(256, vch) && EncodeCheck(h, vch) == Trim(CStr(str))
  {
    ok, vch := DecodeBase58Check(h, CStr(str));
    if ok { EncodeCheckDecodeCheck(h, CStr(str)); }
  }

  class Base58Data {
    var vchVersion: seq<nat>
    var vchData: seq<nat>

    constructor ()
      ensures vchVersion == [] && vchData == []
    {
      vchVersion, vchData := [], [];
    }

    method SetString(h: Hash4, s: string, nVersionBytes: nat) returns (ok: bool)
      modifies this
      ensures ok <==> Parse(h, s, nVersionBytes).Some?
      ensures (vchVersion, vchData) == if ok then Parse(h, s, nVersionBytes).value else ([], [])
      ensures ok ==> |vchVersion| == nVersionBytes && Print(h, vchVersion, vchData) == Trim(s)
    {
      var rc58, vchTemp := DecodeBase58Check(h, s);
      if !rc58 || |vchTemp| < nVersionBytes {
        vchData, vchVersion := [], [];
        return false;
      }
      PrintParse(h, s, nVersionBytes);
      vchVersion, vchData := vchTemp[..nVersionBytes], vchTemp[nVersionBytes..];
      return true;
    }

    method SetStringStr(h: Hash4, str: string) returns (ok: bool)
      modifies this
      ensures ok <==> Parse(h, CStr(str), 1).Some?
      ensures (vchVersion, vchData) == if ok then Parse(h, CStr(str), 1).value else ([], [])
      ensures ok ==> |vchVersion| == 1 && Print(h, vchVersion, vchData) == Trim(CStr(str))
    {
      ok := SetString(h, CStr(str), 1);
    }

    method ToString(h: Hash4) returns (str: string)
      requires Digits(256, vchVersion + vchData)
      ensures str == Print(h, vchVersion, vchData)
      ensures Parse(h, str, |vchVersion|) == Some((vchVersion, vchData))
    {
      ParsePrint(h, vchVersion, vchData);
      str := EncodeBase58Check(h, vchVersion + vchData);
    }
  }
}
