/** The invoice QR: five tag-length-value triplets, and base64 as in section 4 of RFC 4648. */
module QrTlv {
  import opened Base

  type Byte = x: int | 0 <= x < 256

  datatype FiscalError = FieldTooLong(tag: Byte, length: nat) | NotAnInstant(millis: I64)

  const SELLER_NAME: Byte := 1
  const VAT_REGISTRATION: Byte := 2
  const TIMESTAMP: Byte := 3
  const TOTAL_WITH_VAT: Byte := 4
  const VAT_TOTAL: Byte := 5

  // ---------- triplets ----------

  datatype Triplet = Triplet(tag: Byte, value: seq<Byte>)

  /** One triplet appended: tag, length in bytes, value. */
  function Push(buffer: seq<Byte>, t: Triplet): Result<seq<Byte>, FiscalError>
  {
    if |t.value| > 255 then Err(FieldTooLong(t.tag, |t.value|))
    else Ok(buffer + [t.tag, |t.value|] + t.value)
  }

  /** A run of triplets pushed in turn, refused at the first that is too long. */
  function PushAll(buffer: seq<Byte>, ts: seq<Triplet>): Result<seq<Byte>, FiscalError>
    decreases |ts|
  {
    if ts == [] then Ok(buffer)
    else
      var next :- Push(buffer, ts[0]);
      PushAll(next, ts[1..])
  }

  /** The five fields under their tags. */
  function Fields(seller: seq<Byte>, vat: seq<Byte>, at: seq<Byte>, total: seq<Byte>, tax: seq<Byte>): seq<Triplet>
  {
    [Triplet(SELLER_NAME, seller), Triplet(VAT_REGISTRATION, vat), Triplet(TIMESTAMP, at),
     Triplet(TOTAL_WITH_VAT, total), Triplet(VAT_TOTAL, tax)]
  }

  /** `zulu` is the calendar text of a time, where it has one. */
  method QrPayload(
    seller: seq<Byte>, vat: seq<Byte>, at: I64, zulu: I64 -> Option<seq<Byte>>, total: seq<Byte>, tax: seq<Byte>)
    returns (r: Result<string, FiscalError>)
    ensures r == Err(NotAnInstant(at)) <==> |seller| <= 255 && |vat| <= 255 && zulu(at).None?
    ensures r.Ok? <==>
              && |seller| <= 255 && |vat| <= 255 && |total| <= 255 && |tax| <= 255
              && zulu(at).Some? && |zulu(at).value| <= 255
    ensures r.Ok? ==>
              exists bytes :: Decode64(r.value) == Some(bytes)
                              && Decode(bytes)
                                 == Some([Triplet(1, seller), Triplet(2, vat), Triplet(3, zulu(at).value),
                                          Triplet(4, total), Triplet(5, tax)])
  {
    var named :- Push([], Triplet(SELLER_NAME, seller));
    var registered :- Push(named, Triplet(VAT_REGISTRATION, vat));
    var text := zulu(at);
    if text.None? {
      return Err(NotAnInstant(at));
    }
    var dated :- Push(registered, Triplet(TIMESTAMP, text.value));
    var totalled :- Push(dated, Triplet(TOTAL_WITH_VAT, total));
    var bytes :- Push(totalled, Triplet(VAT_TOTAL, tax));
    var fields := Fields(seller, vat, text.value, total, tax);
    assert PushAll([], fields) == Ok(bytes) by {
      assert fields[1..][1..] == fields[2..] && fields[2..][1..] == fields[3..] && fields[3..][1..] == fields[4..];
      assert fields[4..][1..] == [];
      assert PushAll([], fields) == PushAll(named, fields[1..]) == PushAll(registered, fields[2..])
          == PushAll(dated, fields[3..]) == PushAll(totalled, fields[4..]) == PushAll(bytes, []);
    }
    DecodeReadsBack(fields);
    Base64ReadsBack(bytes);
    return Ok(Encode64(bytes));
  }

  /** Pushing fails exactly when some value does not fit its length byte. */
  lemma {:induction false} PushFailsOnLongFields(buffer: seq<Byte>, ts: seq<Triplet>)
    ensures PushAll(buffer, ts).Err? <==> exists k :: 0 <= k < |ts| && |ts[k].value| > 255
    decreases |ts|
  {
    if ts != [] && |ts[0].value| <= 255 {
      PushFailsOnLongFields(Push(buffer, ts[0]).value, ts[1..]);
      var rest := ts[1..];
      assert forall k :: 0 < k < |ts| ==> ts[k] == rest[k - 1];
      assert forall k :: 0 <= k < |rest| ==> rest[k] == ts[k + 1];
    }
  }

  /** What a scanner does: tag, length, that many bytes, and again to the end. */
  function Decode(bytes: seq<Byte>): Option<seq<Triplet>>
  {
    if bytes == [] then Some([])
    else if |bytes| < 2 || |bytes| - 2 < bytes[1] then None
    else
      match Decode(bytes[2 + bytes[1]..])
      case None => None
      case Some(rest) => Some([Triplet(bytes[0], bytes[2..2 + bytes[1]])] + rest)
  }

  lemma {:induction false} PushAllAppends(buffer: seq<Byte>, ts: seq<Triplet>)
    requires PushAll(buffer, ts).Ok?
    ensures PushAll([], ts).Ok? && PushAll(buffer, ts).value == buffer + PushAll([], ts).value
    decreases |ts|
  {
    if ts == [] {
      assert buffer + [] == buffer;
    } else {
      PushFailsOnLongFields(buffer, ts);
      PushFailsOnLongFields([], ts);
      var one := Push([], ts[0]).value;
      PushAllAppends(Push(buffer, ts[0]).value, ts[1..]);
      PushAllAppends(one, ts[1..]);
      assert Push(buffer, ts[0]).value == buffer + one;
      assert (buffer + one) + PushAll([], ts[1..]).value == buffer + (one + PushAll([], ts[1..]).value);
    }
  }

  /** Decoding consumes every byte and gives back every tag and value. */
  lemma {:induction false} DecodeReadsBack(ts: seq<Triplet>)
    requires PushAll([], ts).Ok?
    ensures Decode(PushAll([], ts).value) == Some(ts)
    decreases |ts|
  {
    if ts != [] {
      var t, bytes := ts[0], PushAll([], ts).value;
      var one := Push([], t).value;
      PushAllAppends(one, ts[1..]);
      var rest := PushAll([], ts[1..]).value;
      DecodeReadsBack(ts[1..]);
      assert one == [t.tag, |t.value|] + t.value;
      assert bytes == one + rest;
      assert bytes[2..2 + bytes[1]] == t.value;
      assert bytes[2 + bytes[1]..] == rest;
      assert [t] + ts[1..] == ts;
    }
  }

  // ---------- base64 ----------

  function Symbol(n: nat): char
    requires n < 64
  {
    if n < 26 then ('A' as int + n) as char
    else if n < 52 then ('a' as int + (n - 26)) as char
    else if n < 62 then ('0' as int + (n - 52)) as char
    else if n == 62 then '+'
    else '/'
  }

  function SymbolValue(c: char): (v: Option<nat>)
    ensures v.Some? ==> v.value < 64
  {
    if 'A' <= c <= 'Z' then Some(c as int - 'A' as int)
    else if 'a' <= c <= 'z' then Some(c as int - 'a' as int + 26)
    else if '0' <= c <= '9' then Some(c as int - '0' as int + 52)
    else if c == '+' then Some(62)
    else if c == '/' then Some(63)
    else None
  }

  lemma SymbolReadsBack(n: nat)
    requires n < 64
    ensures SymbolValue(Symbol(n)) == Some(n) && Symbol(n) != '='
  {
  }

  /** Three bytes as four symbols. */
  function Group(x: Byte, y: Byte, z: Byte): string
  {
    [Symbol(x / 4), Symbol(x % 4 * 16 + y / 16), Symbol(y % 16 * 4 + z / 64), Symbol(z % 64)]
  }

  function Encode64(b: seq<Byte>): string
  {
    if b == [] then ""
    else if |b| == 1 then [Symbol(b[0] / 4), Symbol(b[0] % 4 * 16), '=', '=']
    else if |b| == 2 then
      [Symbol(b[0] / 4), Symbol(b[0] % 4 * 16 + b[1] / 16), Symbol(b[1] % 16 * 4), '=']
    else
      Group(b[0], b[1], b[2]) + Encode64(b[3..])
  }

  /** Strict decoding: whole groups of four, padding only at the end, unused bits zero. */
  function Decode64(s: string): Option<seq<Byte>>
  {
    if s == "" then Some([])
    else if |s| < 4 then None
    else
      var v0, v1 := SymbolValue(s[0]), SymbolValue(s[1]);
      if v0.None? || v1.None? then None
      else
        var first := v0.value * 4 + v1.value / 16;
        if s[2..] == "==" then
          if v1.value % 16 == 0 then Some([first]) else None
        else
          var v2 := SymbolValue(s[2]);
          if v2.None? then None
          else
            var second := v1.value % 16 * 16 + v2.value / 4;
            if s[3..] == "=" then
              if v2.value % 4 == 0 then Some([first, second]) else None
            else
              var v3, rest := SymbolValue(s[3]), Decode64(s[4..]);
              if v3.None? || rest.None? then None
              else Some([first, second, v2.value % 4 * 64 + v3.value] + rest.value)
  }

  /** The answers section 10 of RFC 4648 gives: the bytes of `foobar`, whole and cut short. */
  lemma KnownAnswers()
    ensures Encode64([102]) == "Zg==" && Encode64([102, 111]) == "Zm8=" && Encode64([102, 111, 111]) == "Zm9v"
    ensures Encode64([102, 111, 111, 98, 97, 114]) == "Zm9vYmFy"
  {
    assert [102, 111, 111, 98, 97, 114][3..] == [98, 97, 114] && [98, 97, 114][3..] == [];
    assert [102, 111, 111][3..] == [];
    assert Encode64([98, 97, 114]) == "YmFy" + Encode64([]) && Encode64([102, 111, 111]) == "Zm9v" + Encode64([]);
    assert "Zm9v" + "YmFy" == "Zm9vYmFy";
  }

  /** The symbols in order: capitals, small letters, digits, plus and slash. */
  lemma SymbolsInOrder(n: nat)
    requires n < 64
    ensures Symbol(n) as int
         == if n <= 25 then 65 + n
            else if n <= 51 then 71 + n
            else if n <= 61 then n - 4
            else if n == 62 then 43
            else 47
  {
  }

  lemma {:induction false} Base64ReadsBack(b: seq<Byte>)
    ensures Decode64(Encode64(b)) == Some(b)
  {
    if |b| == 1 {
      OneByteReadsBack(b[0]);
      assert b == [b[0]];
    } else if |b| == 2 {
      TwoBytesReadBack(b[0], b[1]);
      assert b == [b[0], b[1]];
    } else if |b| >= 3 {
      Base64ReadsBack(b[3..]);
      GroupTextReadsBack(b[0], b[1], b[2], Encode64(b[3..]));
      assert [b[0], b[1], b[2]] + b[3..] == b;
    }
  }

  lemma OneByteReadsBack(x: Byte)
    ensures Decode64(Encode64([x])) == Some([x])
  {
    var s := Encode64([x]);
    SymbolReadsBack(x / 4);
    SymbolReadsBack(x % 4 * 16);
    assert s[2..] == "==";
  }

  lemma TwoBytesReadBack(x: Byte, y: Byte)
    ensures Decode64(Encode64([x, y])) == Some([x, y])
  {
    var s := Encode64([x, y]);
    SymbolReadsBack(x / 4);
    SymbolReadsBack(x % 4 * 16 + y / 16);
    SymbolReadsBack(y % 16 * 4);
    assert s[2..][0] == s[2] != '=';
    assert s[3..] == "=";
  }

  lemma GroupTextReadsBack(x: Byte, y: Byte, z: Byte, rest: string)
    requires Decode64(rest).Some?
    ensures Decode64(Group(x, y, z) + rest) == Some([x, y, z] + Decode64(rest).value)
  {
    GroupReadsBack(x, y, z);
    GroupThenRest(x / 4, x % 4 * 16 + y / 16, y % 16 * 4 + z / 64, z % 64, rest, x, y, z);
  }

  /** A full group in front of a text that decodes. */
  lemma GroupThenRest(v0: nat, v1: nat, v2: nat, v3: nat, rest: string, x: Byte, y: Byte, z: Byte)
    requires v0 < 64 && v1 < 64 && v2 < 64 && v3 < 64 && Decode64(rest).Some?
    requires v0 * 4 + v1 / 16 == x && v1 % 16 * 16 + v2 / 4 == y && v2 % 4 * 64 + v3 == z
    ensures Decode64([Symbol(v0), Symbol(v1), Symbol(v2), Symbol(v3)] + rest)
            == Some([x, y, z] + Decode64(rest).value)
  {
    var s := [Symbol(v0), Symbol(v1), Symbol(v2), Symbol(v3)] + rest;
    SymbolReadsBack(v0);
    SymbolReadsBack(v1);
    SymbolReadsBack(v2);
    SymbolReadsBack(v3);
    assert s[2..][0] == s[2] != '=' && s[3..][0] == s[3] != '=';
    assert s[4..] == rest;
  }

  /** Three bytes in four six-bit values. */
  lemma GroupReadsBack(x: Byte, y: Byte, z: Byte)
    ensures var v0, v1, v2, v3 := x / 4, x % 4 * 16 + y / 16, y % 16 * 4 + z / 64, z % 64;
            && v0 * 4 + v1 / 16 == x
            && v1 % 16 * 16 + v2 / 4 == y
            && v2 % 4 * 64 + v3 == z
  {
  }

  /** The printed payload identifies all five fields. */
  lemma PayloadIdentifiesTheFields(x: seq<Triplet>, y: seq<Triplet>)
    requires PushAll([], x).Ok? && PushAll([], y).Ok?
    requires Encode64(PushAll([], x).value) == Encode64(PushAll([], y).value)
    ensures x == y
  {
    Base64ReadsBack(PushAll([], x).value);
    Base64ReadsBack(PushAll([], y).value);
    DecodeReadsBack(x);
    DecodeReadsBack(y);
  }
}
