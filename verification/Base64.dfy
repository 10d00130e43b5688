/** The base64 encoding of section 4 of RFC 4648, with padding. */
module Base64 {
  import opened Basics
  import opened Texts

  function Value(c: char): Option<nat> {
    if 'A' <= c <= 'Z' then Some((c - 'A') as nat)
    else if 'a' <= c <= 'z' then Some((c - 'a') as nat + 26)
    else if '0' <= c <= '9' then Some((c - '0') as nat + 52)
    else if c == '+' then Some(62)
    else if c == '/' then Some(63)
    else None
  }

  function Letter(d: nat): (c: char)
    requires d < 64
    ensures Value(c) == Some(d) && c != '=' && !IsSpace(c)
  {
    if d < 26 then 'A' + d as char
    else if d < 52 then 'a' + (d - 26) as char
    else if d < 62 then '0' + (d - 52) as char
    else if d == 62 then '+' else '/'
  }

  function Encode(b: Bytes): string
    decreases |b|
  {
    if |b| == 0 then ""
    else
      var x := b[0] as nat;
      if |b| == 1 then [Letter(x / 4), Letter(x % 4 * 16), '=', '=']
      else
        var y := b[1] as nat;
        if |b| == 2 then [Letter(x / 4), Letter(x % 4 * 16 + y / 16), Letter(y % 16 * 4), '=']
        else
          var z := b[2] as nat;
          [Letter(x / 4), Letter(x % 4 * 16 + y / 16), Letter(y % 16 * 4 + z / 64), Letter(z % 64)] + Encode(b[3..])
  }

  /** Groups of four letters, the last one padded; bits left over in a padded group are ignored. */
  function Decode(s: string): Option<Bytes>
    decreases |s|
  {
    if s == "" then Some([])
    else if |s| < 4 || Value(s[0]).None? || Value(s[1]).None? then None
    else
      var p, q := Value(s[0]).value, Value(s[1]).value;
      Tail(p, q, s[2..])
  }

  function Tail(p: nat, q: nat, s: string): Option<Bytes>
    requires p < 64 && q < 64 && |s| >= 2
    decreases |s|, 0
  {
    var x := (p * 4 + q / 16) as byte;
    if s[0] == '=' then (if s == "==" then Some([x]) else None)
    else if Value(s[0]).None? then None
    else
      var r := Value(s[0]).value;
      var y := (q % 16 * 16 + r / 4) as byte;
      if s[1] == '=' then (if |s| == 2 then Some([x, y]) else None)
      else if Value(s[1]).None? then None
      else
        var z := (r % 4 * 64 + Value(s[1]).value) as byte;
        match Decode(s[2..])
        case None => None
        case Some(rest) => Some([x, y, z] + rest)
  }

  lemma {:induction false} EncodeIsSolid(b: Bytes)
    ensures NoSpace(Encode(b))
    decreases |b|
  {
    if |b| >= 3 { EncodeIsSolid(b[3..]); }
  }

  lemma Recombine(x: byte, y: byte)
    ensures x as nat / 4 * 4 + (x as nat % 4 * 16 + y as nat / 16) / 16 == x as nat
    ensures (x as nat % 4 * 16 + y as nat / 16) % 16 == y as nat / 16
    ensures y as nat / 16 * 16 + y as nat % 16 == y as nat
  {}

  lemma TailOfPair(p: nat, x: byte, y: byte, s: string)
    requires |s| >= 2 && p == x as nat % 4 * 16 + y as nat / 16
    ensures Tail(x as nat / 4, p, s) == TailFrom(x, y as nat / 16, s)
  {
    Recombine(x, y);
    hide Value, Decode;
  }

  /** The tail of a group once its first byte and the high half of its second are known. */
  function TailFrom(x: byte, high: nat, s: string): Option<Bytes>
    requires high < 16 && |s| >= 2
  {
    if s[0] == '=' then (if s == "==" then Some([x]) else None)
    else if Value(s[0]).None? then None
    else
      var r := Value(s[0]).value;
      var y := (high * 16 + r / 4) as byte;
      if s[1] == '=' then (if |s| == 2 then Some([x, y]) else None)
      else if Value(s[1]).None? then None
      else
        var z := (r % 4 * 64 + Value(s[1]).value) as byte;
        match Decode(s[2..])
        case None => None
        case Some(rest) => Some([x, y, z] + rest)
  }

  lemma SecondByte(y: byte, low: nat)
    requires low < 4
    ensures y as nat / 16 * 16 + (y as nat % 16 * 4 + low) / 4 == y as nat
    ensures (y as nat % 16 * 4 + low) % 4 == low
  {}

  lemma ThirdByte(z: byte)
    ensures z as nat / 64 * 64 + z as nat % 64 == z as nat
  {}

  lemma {:induction false} RoundTrip(b: Bytes)
    ensures Decode(Encode(b)) == Some(b)
    decreases |b|
  {
    hide Value, Letter;
    if |b| == 0 {
    } else if |b| == 1 {
      OneByte(b[0]);
      assert b == [b[0]];
    } else if |b| == 2 {
      TwoBytes(b[0], b[1]);
      assert b == [b[0], b[1]];
    } else {
      RoundTrip(b[3..]);
      ThreeBytes(b[0], b[1], b[2], Encode(b[3..]), b[3..]);
      assert b == [b[0], b[1], b[2]] + b[3..];
    }
  }

  lemma OneByte(x: byte)
    ensures Decode([Letter(x as nat / 4), Letter(x as nat % 4 * 16), '=', '=']) == Some([x])
  {
    hide Value, Letter;
    var s := [Letter(x as nat / 4), Letter(x as nat % 4 * 16), '=', '='];
    TailOfPair(x as nat % 4 * 16, x, 0, s[2..]);
    assert s[2..] == "==";
  }

  lemma TwoBytes(x: byte, y: byte)
    ensures Decode([Letter(x as nat / 4), Letter(x as nat % 4 * 16 + y as nat / 16), Letter(y as nat % 16 * 4), '='])
         == Some([x, y])
  {
    hide Value, Letter;
    var q := x as nat % 4 * 16 + y as nat / 16;
    var s := [Letter(x as nat / 4), Letter(q), Letter(y as nat % 16 * 4), '='];
    TailOfPair(q, x, y, s[2..]);
    SecondByte(y, 0);
  }

  lemma ThreeBytes(x: byte, y: byte, z: byte, more: string, rest: Bytes)
    requires Decode(more) == Some(rest)
    ensures Decode([Letter(x as nat / 4), Letter(x as nat % 4 * 16 + y as nat / 16),
                    Letter(y as nat % 16 * 4 + z as nat / 64), Letter(z as nat % 64)] + more) == Some([x, y, z] + rest)
  {
    hide Value, Letter;
    var q, r := x as nat % 4 * 16 + y as nat / 16, y as nat % 16 * 4 + z as nat / 64;
    var s := [Letter(x as nat / 4), Letter(q), Letter(r), Letter(z as nat % 64)] + more;
    TailOfPair(q, x, y, s[2..]);
    SecondByte(y, z as nat / 64);
    ThirdByte(z);
    assert s[2..][2..] == more;
  }

  /** A letter, or padding among the last two signs. */
  predicate Placed(s: string, i: nat)
    requires i < |s|
  {
    Value(s[i]).Some? || (s[i] == '=' && (i == |s| - 1 || (i == |s| - 2 && s[i + 1] == '=')))
  }

  /** Groups of four letters, of which the last may end in one or two padding signs. */
  predicate Padded(s: string) { |s| % 4 == 0 && forall i: nat :: i < |s| ==> Placed(s, i) }

  /** What a padded text loses to padding. */
  function Pads(s: string): nat {
    if |s| < 2 || s[|s| - 1] != '=' then 0 else if s[|s| - 2] != '=' then 1 else 2
  }

  /** Exactly such texts are decoded, to three bytes a group less one for each padding sign. */
  lemma {:induction false} AcceptsExactlyPadded(s: string)
    ensures Decode(s).Some? <==> Padded(s)
    ensures Decode(s).Some? ==> |Decode(s).value| == |s| / 4 * 3 - Pads(s)
    decreases |s|
  {
    if |s| > 4 {
      AcceptsExactlyPadded(s[4..]);
      PaddedTail(s);
      DecodeGroup(s);
      if s[4..] != "" && |s[4..]| >= 2 { assert Pads(s[4..]) == Pads(s); }
      hide Padded, Value, Decode;
    } else if |s| == 4 {
      DecodeLast(s);
    }
  }

  lemma DecodeGroup(s: string)
    requires |s| > 4
    ensures var letters := Value(s[0]).Some? && Value(s[1]).Some? && Value(s[2]).Some? && Value(s[3]).Some?;
      && (Decode(s).Some? <==> letters && Decode(s[4..]).Some?)
      && (Decode(s).Some? ==> |Decode(s).value| == 3 + |Decode(s[4..]).value|)
  {
    assert s[2..][2..] == s[4..] && s[2..][0] == s[2] && s[2..][1] == s[3];
    assert s[2..] != "==";
    assert Value('=').None?;
  }

  lemma DecodeLast(s: string)
    requires |s| == 4
    ensures Decode(s).Some? <==> Padded(s)
    ensures Decode(s).Some? ==> |Decode(s).value| == 3 - Pads(s)
  {
    var t := s[2..];
    assert t[0] == s[2] && t[1] == s[3] && t[2..] == "" && Decode("") == Some([]);
    assert t == "==" <==> s[2] == '=' && s[3] == '=';
    assert Value('=').None?;
    assert Padded(s) <==> Placed(s, 0) && Placed(s, 1) && Placed(s, 2) && Placed(s, 3);
    hide Value;
  }

  lemma PaddedTail(s: string)
    requires |s| > 4
    ensures Padded(s) <==>
      Value(s[0]).Some? && Value(s[1]).Some? && Value(s[2]).Some? && Value(s[3]).Some? && Padded(s[4..])
  {
    hide Value;
    var t := s[4..];
    assert forall i: nat :: i < |t| ==> (Placed(t, i) <==> Placed(s, i + 4));
    assert forall i: nat :: 4 <= i < |s| ==> (Placed(s, i) <==> Placed(t, i - 4));
    if |s| % 4 == 0 {
      assert forall i: nat :: i < 4 ==> (Placed(s, i) <==> Value(s[i]).Some?);
      assert Padded(s) ==> Placed(s, 0) && Placed(s, 1) && Placed(s, 2) && Placed(s, 3);
    }
    hide Placed;
  }
}
