/** The address column of the registry: base16 items (section 8 of RFC 4648) joined by commas. */
module Codec {
  import opened Prelude

  const DIGITS := "0123456789abcdef"

  function Digit(n: int): (c: char)
    requires 0 <= n < 16
    ensures c != ','
  {
    DIGITS[n]
  }

  /** hex.DecodeString reads both cases. */
  function Nibble(c: char): (r: Option<int>)
    ensures r.Some? ==> 0 <= r.value < 16
  {
    if '0' <= c <= '9' then Some(c as int - '0' as int)
    else if 'a' <= c <= 'f' then Some(c as int - 'a' as int + 10)
    else if 'A' <= c <= 'F' then Some(c as int - 'A' as int + 10)
    else None
  }

  function EncodeHex(b: Bytes): string {
    if b == [] then "" else [Digit(b[0] as int / 16), Digit(b[0] as int % 16)] + EncodeHex(b[1..])
  }

  function DecodeHex(s: string): Option<Bytes> {
    if s == "" then Some([])
    else if |s| == 1 then None
    else
      var hi, lo, rest := Nibble(s[0]), Nibble(s[1]), DecodeHex(s[2..]);
      if hi.None? || lo.None? || rest.None? then None else Some([(hi.value * 16 + lo.value) as byte] + rest.value)
  }

  function Encode(list: seq<Bytes>): string {
    if list == [] then "" else if |list| == 1 then EncodeHex(list[0]) else EncodeHex(list[0]) + "," + Encode(list[1..])
  }

  /** The fields between commas; one field for a string without commas. */
  function Fields(s: string): seq<string> {
    if s == "" then [""]
    else if s[0] == ',' then [""] + Fields(s[1..])
    else
      var rest := Fields(s[1..]);
      if rest == [] then [s] else [[s[0]] + rest[0]] + rest[1..]
  }

  /** Fields that are not base16 are dropped. */
  function Readable(fields: seq<string>): seq<Bytes> {
    if fields == [] then []
    else (if DecodeHex(fields[0]).Some? then [DecodeHex(fields[0]).value] else []) + Readable(fields[1..])
  }

  function Decode(s: string): seq<Bytes> {
    if s == "" then [] else Readable(Fields(s))
  }

  /** One byte survives as two digits. */
  lemma HexCons(b: byte, text: string)
    ensures var s := [Digit(b as int / 16), Digit(b as int % 16)] + text;
      DecodeHex(s) == if DecodeHex(text).Some? then Some([b] + DecodeHex(text).value) else None
  {
    DigitRoundTrip(b as int / 16);
    DigitRoundTrip(b as int % 16);
    hide Digit, Nibble;
    assert ([Digit(b as int / 16), Digit(b as int % 16)] + text)[2..] == text;
  }

  lemma {:induction false} HexRoundTrip(b: Bytes)
    ensures DecodeHex(EncodeHex(b)) == Some(b)
    ensures ',' !in EncodeHex(b)
  {
    hide Digit, Nibble;
    if b != [] {
      HexRoundTrip(b[1..]);
      HexCons(b[0], EncodeHex(b[1..]));
      assert b == [b[0]] + b[1..];
    }
  }

  lemma DigitRoundTrip(n: int)
    requires 0 <= n < 16
    ensures Nibble(Digit(n)) == Some(n)
  {
  }

  /** The text up to the first comma is the first field. */
  lemma {:induction false} FirstField(part: string, rest: string)
    requires ',' !in part
    ensures Fields(part) == [part]
    ensures Fields(part + "," + rest) == [part] + Fields(rest)
  {
    var s := part + "," + rest;
    if part == "" {
      assert s[1..] == rest;
    } else {
      FirstField(part[1..], rest);
      assert s[1..] == part[1..] + "," + rest;
      assert part == [part[0]] + part[1..];
    }
  }

  lemma ReadableCons(field: string, rest: seq<string>)
    ensures Readable([field] + rest) == (if DecodeHex(field).Some? then [DecodeHex(field).value] else []) + Readable(rest)
  {
    assert ([field] + rest)[1..] == rest;
  }

  lemma {:induction false} FieldsRoundTrip(list: seq<Bytes>)
    requires list != []
    ensures Readable(Fields(Encode(list))) == list
  {
    HexRoundTrip(list[0]);
    if |list| == 1 {
      FirstField(EncodeHex(list[0]), "");
      assert list == [list[0]];
    } else {
      FieldsRoundTrip(list[1..]);
      FirstField(EncodeHex(list[0]), Encode(list[1..]));
      ReadableCons(EncodeHex(list[0]), Fields(Encode(list[1..])));
      assert list == [list[0]] + list[1..];
    }
  }

  lemma EmptyHex(b: Bytes)
    ensures EncodeHex(b) == "" <==> b == []
  {
  }

  /** Only the list holding one empty string is lost: its encoding is the encoding of the empty list. */
  lemma RoundTrip(list: seq<Bytes>)
    ensures Decode(Encode(list)) == if list == [[]] then [] else list
  {
    if list != [] {
      FieldsRoundTrip(list);
      EmptyHex(list[0]);
      hide Fields, Readable, EncodeHex;
      if |list| == 1 {
        assert list == [list[0]];
      } else {
        assert ',' in Encode(list);
      }
    }
  }

  /** Base16 in lower case, high digit first. */
  lemma {:induction false} HexDigits(b: Bytes, i: nat)
    requires i < |b|
    ensures |EncodeHex(b)| == 2 * |b|
    ensures EncodeHex(b)[2 * i] == "0123456789abcdef"[b[i] as int / 16] && EncodeHex(b)[2 * i + 1] == "0123456789abcdef"[b[i] as int % 16]
  {
    if i > 0 {
      HexDigits(b[1..], i - 1);
    } else if |b| > 1 {
      HexDigits(b[1..], 0);
    }
  }

  predicate IsHexDigit(c: char) {
    '0' <= c <= '9' || 'a' <= c <= 'f' || 'A' <= c <= 'F'
  }

  /** Exactly the texts of paired digits, in either case, are read. */
  lemma {:induction false} ReadableIff(s: string)
    ensures DecodeHex(s).Some? <==> |s| % 2 == 0 && forall i | 0 <= i < |s| :: IsHexDigit(s[i])
    ensures DecodeHex(s).Some? ==> 2 * |DecodeHex(s).value| == |s|
    decreases |s|
  {
    if |s| >= 2 {
      ReadableIff(s[2..]);
      assert forall i | 0 <= i < |s| - 2 :: s[2..][i] == s[i + 2];
      assert forall i | 2 <= i < |s| :: s[i] == s[2..][i - 2];
    }
  }

  lemma DigitValue(c: char)
    ensures '0' <= c <= '9' ==> Nibble(c) == Some(c as int - '0' as int)
    ensures 'a' <= c <= 'f' ==> Nibble(c) == Some(10 + c as int - 'a' as int)
    ensures 'A' <= c <= 'F' ==> Nibble(c) == Some(10 + c as int - 'A' as int)
    ensures !IsHexDigit(c) ==> Nibble(c) == None
  {
  }

  function Joined(fields: seq<string>): string
    requires fields != []
  {
    if |fields| == 1 then fields[0] else fields[0] + "," + Joined(fields[1..])
  }

  /** The fields of a text hold no comma and give the text back when joined by commas. */
  lemma {:induction false} FieldsOfText(s: string)
    ensures Fields(s) != [] && Joined(Fields(s)) == s
    ensures forall f | f in Fields(s) :: ',' !in f
  {
    if s != "" {
      FieldsOfText(s[1..]);
      var rest := Fields(s[1..]);
      assert s == [s[0]] + s[1..];
      if s[0] == ',' {
        assert ([""] + rest)[1..] == rest;
      } else {
        var fields := [[s[0]] + rest[0]] + rest[1..];
        assert fields[1..] == rest[1..];
      }
    }
  }

  /** An encoded list is its items in base16, joined by commas. */
  lemma {:induction false} EncodedIsJoined(list: seq<Bytes>)
    requires list != []
    ensures |Fields(Encode(list))| == |list| && forall i | 0 <= i < |list| :: Fields(Encode(list))[i] == EncodeHex(list[i])
  {
    HexRoundTrip(list[0]);
    FirstField(EncodeHex(list[0]), if |list| == 1 then "" else Encode(list[1..]));
    if |list| > 1 {
      EncodedIsJoined(list[1..]);
    }
  }

  /** encodeStringSlice. */
  method EncodeStringSlice(list: seq<Bytes>) returns (text: string)
    ensures text == Encode(list)
  {
    text := "";
    for i := 0 to |list|
      invariant text == Encode(list[..i])
    {
      EncodeSnoc(list[..i], list[i]);
      assert list[..i + 1] == list[..i] + [list[i]];
      if i > 0 {
        text := text + ",";
      }
      text := text + EncodeHex(list[i]);
    }
    assert list[..|list|] == list;
  }

  lemma {:induction false} EncodeSnoc(list: seq<Bytes>, b: Bytes)
    ensures Encode(list + [b]) == (if list == [] then "" else Encode(list) + ",") + EncodeHex(b)
  {
    if |list| > 0 {
      EncodeSnoc(list[1..], b);
      assert (list + [b])[1..] == list[1..] + [b];
    }
  }

  /** What the field at start contributes. */
  function Piece(part: string): seq<Bytes> {
    if DecodeHex(part).Some? then [DecodeHex(part).value] else []
  }

  /** What is still to be read from position start on; nothing once the end is passed. */
  function Rest(s: string, start: nat): seq<Bytes> {
    if start <= |s| then Readable(Fields(s[start..])) else []
  }

  predicate InField(s: string, start: nat, i: nat) {
    start <= i <= |s| && ',' !in s[start..i]
  }

  /** Cutting a field off at a comma, or at the end. */
  lemma CutField(s: string, start: nat, i: nat)
    requires InField(s, start, i) && (i == |s| || s[i] == ',')
    ensures Rest(s, start) == Piece(s[start..i]) + Rest(s, i + 1)
  {
    hide Fields, Readable, DecodeHex;
    var part := s[start..i];
    if i < |s| {
      assert s[start..] == part + "," + s[i + 1..];
      FirstField(part, s[i + 1..]);
      ReadableCons(part, Fields(s[i + 1..]));
    } else {
      assert s[start..] == part;
      FirstField(part, "");
      ReadableCons(part, []);
      NoFields();
      assert [part] + [] == [part];
    }
  }

  lemma NoFields()
    ensures Readable([]) == []
  {
  }

  lemma NextField(s: string, start: nat, i: nat, before: seq<Bytes>)
    requires InField(s, start, i) && (i == |s| || s[i] == ',')
    ensures before + Rest(s, start) == (before + Piece(s[start..i])) + Rest(s, i + 1)
    ensures i < |s| ==> InField(s, i + 1, i + 1)
  {
    hide Rest, Piece;
    CutField(s, start, i);
  }

  lemma SameField(s: string, start: nat, i: nat)
    requires InField(s, start, i) && i < |s| && s[i] != ','
    ensures InField(s, start, i + 1)
  {
    assert s[start..i + 1] == s[start..i] + [s[i]];
  }

  lemma PieceOf(before: seq<Bytes>, part: string)
    ensures before + Piece(part) == if DecodeHex(part).Some? then before + [DecodeHex(part).value] else before
  {
    assert before + [] == before;
  }

  /** decodeStringSlice. */
  method DecodeStringSlice(s: string) returns (result: seq<Bytes>)
    ensures result == Decode(s)
  {
    if s == "" {
      return [];
    }
    result := [];
    var start := 0;
    assert s[0..] == s;
    assert result + Rest(s, 0) == Decode(s);
    assert InField(s, 0, 0);
    hide *;
    var i := 0;
    while i <= |s|
      invariant 0 <= start <= i <= |s| + 1
      invariant i <= |s| ==> InField(s, start, i)
      invariant i > |s| ==> start == |s| + 1
      invariant result + Rest(s, start) == Decode(s)
    {
      if i == |s| || s[i] == ',' {
        var part := s[start..i];
        NextField(s, start, i, result);
        PieceOf(result, part);
        var b := DecodeHex(part);
        if b.Some? {
          result := result + [b.value];
        }
        start := i + 1;
      } else {
        SameField(s, start, i);
      }
      i := i + 1;
    }
    RestAtEnd(s, result);
  }

  lemma RestAtEnd(s: string, result: seq<Bytes>)
    ensures result + Rest(s, |s| + 1) == result
  {
  }
}
