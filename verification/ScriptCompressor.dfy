/**
 * The compact form of output scripts: CScriptCompressor of src/compressor.h and src/compressor.cpp.
 * The elliptic curve is a parameter.
 */
module ScriptCompressor {
  import opened Amounts
  import opened Coins
  import opened Wrappers

  const TWO32 := 0x1_0000_0000
  const OP_DUP := 0x76
  const OP_EQUAL := 0x87
  const OP_EQUALVERIFY := 0x88
  const OP_HASH160 := 0xa9
  const OP_CHECKSIG := 0xac

  const SPECIAL_SCRIPTS := 6

  /** CPubKey::IsFullyValid and CPubKey::Decompress. */
  datatype Curve = Curve(isFullyValid: seq<int> -> bool, decompress: seq<int> -> Option<seq<int>>)

  /** A valid point is determined by its first coordinate and the parity of its second. */
  ghost predicate Determined(curve: Curve) {
    forall key: seq<int> | |key| == 65 && key[0] == 4 && curve.isFullyValid(key) ::
      curve.decompress([2 + key[64] % 2] + key[1..33]) == Some(key)
  }

  predicate IsToKeyID(script: seq<int>) {
    && |script| == 25 && script[0] == OP_DUP && script[1] == OP_HASH160 && script[2] == 20
    && script[23] == OP_EQUALVERIFY && script[24] == OP_CHECKSIG
  }

  predicate IsToScriptID(script: seq<int>) {
    |script| == 23 && script[0] == OP_HASH160 && script[1] == 20 && script[22] == OP_EQUAL
  }

  predicate IsToShortKey(script: seq<int>) {
    |script| == 35 && script[0] == 33 && script[34] == OP_CHECKSIG && (script[1] == 2 || script[1] == 3)
  }

  predicate IsToLongKey(curve: Curve, script: seq<int>) {
    |script| == 67 && script[0] == 65 && script[66] == OP_CHECKSIG && script[1] == 4 && curve.isFullyValid(script[1..66])
  }

  /** The special forms: a tag and the part of the script that varies. */
  function Compress(curve: Curve, script: seq<int>): Option<seq<int>> {
    if IsToKeyID(script) then Some([0] + script[3..23])
    else if IsToScriptID(script) then Some([1] + script[2..22])
    else if IsToShortKey(script) then Some([script[1]] + script[2..34])
    else if IsToLongKey(curve, script) then Some([4 + script[65] % 2] + script[2..34])
    else None
  }

  function SpecialSize(tag: nat): nat { if tag <= 1 then 20 else if tag <= 5 then 32 else 0 }

  /** The script of a special form; it stays empty if the point cannot be recovered. */
  function Decompress(curve: Curve, tag: nat, data: seq<int>): seq<int> {
    if tag == 0 then [OP_DUP, OP_HASH160, 20] + data + [OP_EQUALVERIFY, OP_CHECKSIG]
    else if tag == 1 then [OP_HASH160, 20] + data + [OP_EQUAL]
    else if tag <= 3 then [33, tag] + data + [OP_CHECKSIG]
    else
      var key := curve.decompress([tag - 2] + data);
      if key.None? then [] else [65] + key.value + [OP_CHECKSIG]
  }

  /** Serialize: the size is an unsigned 32-bit number. */
  function Put(curve: Curve, script: seq<int>): seq<int> {
    var c := Compress(curve, script);
    if c.Some? then c.value else WriteVarInt((|script| + SPECIAL_SCRIPTS) % TWO32) + script
  }

  /** Unserialize into an empty script: a script that is too long is replaced by OP_RETURN. */
  function Get(curve: Curve, s: seq<int>): Option<(seq<int>, seq<int>)> {
    var n := ReadVarInt(s, 0, TWO32);
    if n.None? then None
    else if n.value.0 < SPECIAL_SCRIPTS then GetSpecial(curve, n.value.0, n.value.1)
    else GetPlain(n.value.0 - SPECIAL_SCRIPTS, n.value.1)
  }

  function GetSpecial(curve: Curve, tag: nat, s: seq<int>): Option<(seq<int>, seq<int>)> {
    var k := SpecialSize(tag);
    if |s| < k then None else Some((Decompress(curve, tag, s[..k]), s[k..]))
  }

  function GetPlain(size: nat, s: seq<int>): Option<(seq<int>, seq<int>)> {
    if |s| < size then None
    else Some((if size > MAX_SCRIPT_SIZE then [OP_RETURN] else s[..size], s[size..]))
  }

  /** What is left of a script. */
  function Lasting(script: seq<int>): (r: seq<int>)
    ensures r == script <==> |script| <= MAX_SCRIPT_SIZE
  {
    if |script| > MAX_SCRIPT_SIZE then [OP_RETURN] else script
  }

  lemma ReadTag(tag: int, s: seq<int>)
    requires 0 <= tag < 0x80
    ensures ReadVarInt([tag] + s, 0, TWO32) == Some((tag, s))
  {
    VarIntRoundTrip(tag, s, TWO32);
    assert WriteVarInt(tag) == [tag];
  }

  lemma ReadSpecial(curve: Curve, tag: nat, data: seq<int>, rest: seq<int>)
    requires tag < SPECIAL_SCRIPTS && |data| == SpecialSize(tag)
    ensures Get(curve, [tag] + data + rest) == Some((Decompress(curve, tag, data), rest))
  {
    assert [tag] + data + rest == [tag] + (data + rest);
    ReadTag(tag, data + rest);
    assert (data + rest)[..|data|] == data && (data + rest)[|data|..] == rest;
  }

  /** A special form gives back its script. */
  lemma SpecialComesBack(curve: Curve, script: seq<int>)
    requires Determined(curve) && Compress(curve, script).Some?
    ensures var c := Compress(curve, script).value;
            && 0 <= c[0] < SPECIAL_SCRIPTS && |c| == 1 + SpecialSize(c[0])
            && Decompress(curve, c[0], c[1..]) == script && |script| <= MAX_SCRIPT_SIZE
  {
    var c := Compress(curve, script).value;
    if IsToKeyID(script) {
      assert c[1..] == script[3..23];
    } else if IsToScriptID(script) {
      assert c[1..] == script[2..22];
    } else if IsToShortKey(script) {
      assert c[1..] == script[2..34];
    } else {
      LongKeyComesBack(curve, script, c);
    }
  }

  lemma LongKeyComesBack(curve: Curve, script: seq<int>, c: seq<int>)
    requires Determined(curve) && IsToLongKey(curve, script) && c == [4 + script[65] % 2] + script[2..34]
    ensures 4 <= c[0] <= 5 && Decompress(curve, c[0], c[1..]) == script
  {
    var key := script[1..66];
    assert key[64] == script[65] && key[1..33] == script[2..34] == c[1..];
    assert curve.decompress([2 + key[64] % 2] + key[1..33]) == Some(key);
  }

  lemma PlainComesBack(script: seq<int>, rest: seq<int>)
    ensures GetPlain(|script|, script + rest) == Some((Lasting(script), rest))
  {
    assert (script + rest)[..|script|] == script && (script + rest)[|script|..] == rest;
  }

  /** Reading consumes exactly what was written and gives the script back unless it is too long. */
  lemma ScriptRoundTrip(curve: Curve, script: seq<int>, rest: seq<int>)
    requires Determined(curve) && |script| + SPECIAL_SCRIPTS < TWO32
    ensures Get(curve, Put(curve, script) + rest) == Some((Lasting(script), rest))
  {
    if Compress(curve, script).Some? {
      var c := Compress(curve, script).value;
      SpecialComesBack(curve, script);
      assert c == [c[0]] + c[1..];
      ReadSpecial(curve, c[0], c[1..], rest);
    } else {
      var n := |script| + SPECIAL_SCRIPTS;
      SmallRest(n);
      assert Put(curve, script) + rest == WriteVarInt(n) + (script + rest);
      VarIntRoundTrip(n, script + rest, TWO32);
      PlainComesBack(script, rest);
    }
  }

  lemma SmallRest(n: nat)
    requires n < TWO32
    ensures n % TWO32 == n
  {}

  /** GetSerializeSize. */
  method ScriptSize(curve: Curve, script: seq<int>) returns (nSize: nat)
    ensures nSize == |Put(curve, script)|
  {
    var compr := Compress(curve, script);
    if compr.Some? { return |compr.value|; }
    var n := SizeOfVarInt((|script| + SPECIAL_SCRIPTS) % TWO32);
    return |script| + n;
  }
}
