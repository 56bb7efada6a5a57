/** Base58: what the two codecs compute, and that each undoes the other. */
module Base58 {
  import opened Options
  import opened Numerals

  // ---------- characters ----------

  /** The alphanumeric characters without 0, I, O and l. */
  const ALPHABET: string :=
    "123456789" + "ABCDEFGH" + "JKLMN" + "PQRSTUVWXYZ" + "abcdefghijk" + "mnopqrstuvwxyz"

  /** The same characters by arithmetic. */
  function Symbol(d: nat): char
    requires d < 58
  {
    if d < 9 then (d + 49) as char
    else if d < 17 then (d + 56) as char
    else if d < 22 then (d + 57) as char
    else if d < 33 then (d + 58) as char
    else if d < 44 then (d + 64) as char
    else (d + 65) as char
  }

  lemma {:induction false} AlphabetIs(d: nat)
    requires d < 58
    ensures ALPHABET[d] == Symbol(d)
  {
    if d < 9 {
      assert ALPHABET[d] == "123456789"[d];
    } else if d < 17 {
      assert ALPHABET[d] == "ABCDEFGH"[d - 9];
    } else if d < 22 {
      assert ALPHABET[d] == "JKLMN"[d - 17];
    } else if d < 33 {
      assert ALPHABET[d] == "PQRSTUVWXYZ"[d - 22];
    } else if d < 44 {
      assert ALPHABET[d] == "abcdefghijk"[d - 33];
    } else {
      assert ALPHABET[d] == "mnopqrstuvwxyz"[d - 44];
    }
  }

  /** The first position of c in s, or |s|. */
  function Find(s: string, c: char): (k: nat)
    ensures k <= |s| && (k < |s| ==> s[k] == c)
    ensures forall i :: 0 <= i < k ==> s[i] != c
  {
    if s == [] || s[0] == c then 0 else 1 + Find(s[1..], c)
  }

  /** The digit a character stands for, or 58. */
  function IndexOf(c: char): (k: nat)
    ensures k <= 58 && (k < 58 ==> Symbol(k) == c)
  {
    if '1' <= c <= '9' then c as int - 49
    else if 'A' <= c <= 'H' then c as int - 56
    else if 'J' <= c <= 'N' then c as int - 57
    else if 'P' <= c <= 'Z' then c as int - 58
    else if 'a' <= c <= 'k' then c as int - 64
    else if 'm' <= c <= 'z' then c as int - 65
    else 58
  }

  lemma {:induction false} IndexOfSymbol(d: nat)
    requires d < 58
    ensures IndexOf(Symbol(d)) == d
  {
  }

  /** It is the place at which strchr finds the character in the alphabet. */
  lemma {:induction false} IndexOfIsFind(c: char)
    ensures IndexOf(c) == Find(ALPHABET, c)
  {
    var k, d := Find(ALPHABET, c), IndexOf(c);
    if k < 58 {
      AlphabetIs(k);
      IndexOfSymbol(k);
    } else if d < 58 {
      AlphabetIs(d);
    }
  }

  /** isspace in the C locale. */
  predicate IsSpace(c: char) { c == ' ' || 9 as char <= c <= 13 as char }

  lemma {:induction false} AlphabetNotSpace(d: nat)
    requires d < 58
    ensures !IsSpace(Symbol(d)) && (Symbol(d) == '1' <==> d == 0)
  {
  }

  function Chars(digits: seq<nat>): (s: string)
    requires forall i :: 0 <= i < |digits| ==> digits[i] < 58
    ensures |s| == |digits|
  {
    seq(|digits|, i requires 0 <= i < |digits| => Symbol(digits[i]))
  }

  function Indices(s: string): (digits: seq<nat>)
    ensures |digits| == |s|
  {
    seq(|s|, i requires 0 <= i < |s| => IndexOf(s[i]))
  }

  predicate InAlphabet(s: string) {
    forall i :: 0 <= i < |s| ==> IndexOf(s[i]) < 58
  }

  lemma {:induction false} CharsOfIndices(s: string)
    requires InAlphabet(s)
    ensures Digits(58, Indices(s)) && Chars(Indices(s)) == s
  {
  }

  lemma {:induction false} IndicesOfChars(digits: seq<nat>)
    requires Digits(58, digits)
    ensures InAlphabet(Chars(digits)) && Indices(Chars(digits)) == digits
  {
    forall i | 0 <= i < |digits| ensures IndexOf(Chars(digits)[i]) == digits[i] { IndexOfSymbol(digits[i]); }
  }

  // ---------- what the codec computes ----------

  /** How many elements at the front of s equal x. */
  function Leading<T(==)>(s: seq<T>, x: T): (k: nat)
    ensures k <= |s| && (k < |s| ==> s[k] != x)
    ensures forall i :: 0 <= i < k ==> s[i] == x
  {
    if s == [] || s[0] != x then 0 else 1 + Leading(s[1..], x)
  }

  lemma {:induction false} LeadingIs<T>(s: seq<T>, x: T, k: nat)
    requires k <= |s| && (k < |s| ==> s[k] != x)
    requires forall i :: 0 <= i < k ==> s[i] == x
    ensures Leading(s, x) == k
    decreases k
  {
    if k > 0 {
      assert s[0] == x;
      LeadingIs(s[1..], x, k - 1);
    }
  }

  function Repeat<T>(x: T, n: nat): seq<T> { seq(n, _ => x) }

  lemma {:induction false} LeadingSplits<T>(s: seq<T>, x: T)
    ensures Repeat(x, Leading(s, x)) + s[Leading(s, x)..] == s
  {
  }

  function Encode(v: seq<nat>): string {
    var zeroes := Leading(v, 0);
    Repeat('1', zeroes) + Chars(DigitsOf(58, Val(256, v[zeroes..])))
  }

  function DropSpaces(s: string): (t: string)
    ensures |t| <= |s| && t == s[|s| - |t|..] && (t != [] ==> !IsSpace(t[0]))
    ensures forall i :: 0 <= i < |s| - |t| ==> IsSpace(s[i])
  {
    if s != [] && IsSpace(s[0]) then DropSpaces(s[1..]) else s
  }

  function TrimEnd(s: string): string {
    if s != [] && IsSpace(s[|s| - 1]) then TrimEnd(s[..|s| - 1]) else s
  }

  function Trim(s: string): string { TrimEnd(DropSpaces(s)) }

  /** The length of the run of characters before the first space. */
  function WordLength(s: string): (n: nat)
    ensures n <= |s| && (n < |s| ==> IsSpace(s[n]))
    ensures forall i :: 0 <= i < n ==> !IsSpace(s[i])
  {
    if s == [] || IsSpace(s[0]) then 0 else 1 + WordLength(s[1..])
  }

  predicate AllSpaces(s: string) { forall i :: 0 <= i < |s| ==> IsSpace(s[i]) }

  function Decode(s: string): Option<seq<nat>> {
    var t := DropSpaces(s);
    var zeroes := Leading(t, '1');
    var rest := t[zeroes..];
    var n := WordLength(rest);
    if InAlphabet(rest[..n]) && AllSpaces(rest[n..]) then
      Some(Repeat(0, zeroes) + DigitsOf(256, Val(58, Indices(rest[..n]))))
    else None
  }

  // ---------- each undoes the other ----------

  lemma {:induction false} InAlphabetNotSpace(word: string, i: nat)
    requires InAlphabet(word) && i < |word|
    ensures !IsSpace(word[i])
  {
    AlphabetNotSpace(IndexOf(word[i]));
  }

  lemma {:induction false} AllWord(word: string)
    requires forall i :: 0 <= i < |word| ==> !IsSpace(word[i])
    ensures WordLength(word) == |word|
  {
  }

  lemma {:induction false} DecodeOf(s: string, zeroes: nat, rest: string, n: nat)
    requires DropSpaces(s) == s && Leading(s, '1') == zeroes && rest == s[zeroes..] && WordLength(rest) == n
    requires InAlphabet(rest[..n]) && AllSpaces(rest[n..])
    ensures Decode(s) == Some(Repeat(0, zeroes) + DigitsOf(256, Val(58, Indices(rest[..n]))))
  {
  }

  /** Ones, then a word of the alphabet that does not begin with a one, is decoded by value. */
  lemma {:induction false} WordIsDecoded(zeroes: nat, word: string)
    requires InAlphabet(word) && (word != [] ==> word[0] != '1')
    ensures Decode(Repeat('1', zeroes) + word) == Some(Repeat(0, zeroes) + DigitsOf(256, Val(58, Indices(word))))
  {
    var s := Repeat('1', zeroes) + word;
    forall i | 0 <= i < |word| ensures !IsSpace(word[i]) { InAlphabetNotSpace(word, i); }
    AllWord(word);
    LeadingIs(s, '1', zeroes);
    assert s[zeroes..] == word && word[..|word|] == word;
    DecodeOf(s, zeroes, word, |word|);
  }

  lemma {:induction false} DecodeEncode(v: seq<nat>)
    requires Digits(256, v)
    ensures Decode(Encode(v)) == Some(v)
  {
    var zeroes := Leading(v, 0);
    var tail := v[zeroes..];
    var digits := DigitsOf(58, Val(256, tail));
    DigitsOfVal(58, Val(256, tail));
    ValDigitsOf(256, tail);
    IndicesOfChars(digits);
    if digits != [] { AlphabetNotSpace(digits[0]); }
    WordIsDecoded(zeroes, Chars(digits));
    LeadingSplits(v, 0);
  }

  lemma {:induction false} TrimEndWord(word: string, spaces: string)
    requires AllSpaces(spaces) && forall i :: 0 <= i < |word| ==> !IsSpace(word[i])
    ensures TrimEnd(word + spaces) == word
    decreases |spaces|
  {
    if spaces == [] {
      assert word + spaces == word;
    } else {
      assert (word + spaces)[..|word + spaces| - 1] == word + spaces[..|spaces| - 1];
      TrimEndWord(word, spaces[..|spaces| - 1]);
    }
  }

  /** The parts a decoded string falls into. */
  lemma {:induction false} EncodeOfValue(zeroes: nat, word: string)
    requires InAlphabet(word) && (word != [] ==> word[0] != '1')
    ensures var v := Repeat(0, zeroes) + DigitsOf(256, Val(58, Indices(word)));
            Digits(256, v) && Encode(v) == Repeat('1', zeroes) + word
  {
    CharsOfIndices(word);
    var N := Val(58, Indices(word));
    var v := Repeat(0, zeroes) + DigitsOf(256, N);
    DigitsOfVal(256, N);
    LeadingIs(v, 0, zeroes);
    assert v[zeroes..] == DigitsOf(256, N);
    if word != [] {
      AlphabetNotSpace(IndexOf(word[0]));
      assert Indices(word)[0] != 0;
    }
    ValDigitsOf(58, Indices(word));
  }

  lemma {:induction false} TrimParts(t: string, zeroes: nat, n: nat)
    requires zeroes + n <= |t| && forall i :: 0 <= i < zeroes ==> t[i] == '1'
    requires forall i :: 0 <= i < n ==> !IsSpace(t[zeroes..][i])
    requires AllSpaces(t[zeroes..][n..])
    ensures TrimEnd(t) == Repeat('1', zeroes) + t[zeroes..][..n]
  {
    var rest := t[zeroes..];
    var word := Repeat('1', zeroes) + rest[..n];
    TrimEndWord(word, rest[n..]);
    assert t == word + rest[n..];
  }

  lemma {:induction false} EncodeDecode(s: string)
    requires Decode(s).Some?
    ensures Digits(256, Decode(s).value)
    ensures Encode(Decode(s).value) == Trim(s)
  {
    var t := DropSpaces(s);
    var zeroes := Leading(t, '1');
    var n := WordLength(t[zeroes..]);
    TrimParts(t, zeroes, n);
    EncodeOfValue(zeroes, t[zeroes..][..n]);
  }
}
