/** Well-formed UTF-8 (section 4 of RFC 3629), the invariant of a Rust `String`. */
module Utf8 {
  import opened Bytes

  predicate Continuation(b: byte) { 0x80 <= b <= 0xBF }

  predicate SecondByteFits(lead: byte, second: byte) {
    Continuation(second)
    && (lead == 0xE0 ==> second >= 0xA0)
    && (lead == 0xED ==> second <= 0x9F)
    && (lead == 0xF0 ==> second >= 0x90)
    && (lead == 0xF4 ==> second <= 0x8F)
  }

  predicate ValidUtf8(s: seq<byte>) {
    if s == [] then true
    else if s[0] <= 0x7F then ValidUtf8(s[1..])
    else if |s| >= 2 && 0xC2 <= s[0] <= 0xDF then
      Continuation(s[1]) && ValidUtf8(s[2..])
    else if |s| >= 3 && 0xE0 <= s[0] <= 0xEF then
      SecondByteFits(s[0], s[1]) && Continuation(s[2]) && ValidUtf8(s[3..])
    else if |s| >= 4 && 0xF0 <= s[0] <= 0xF4 then
      SecondByteFits(s[0], s[1]) && Continuation(s[2]) && Continuation(s[3]) && ValidUtf8(s[4..])
    else false
  }

  /** A string, as its UTF-8 bytes. */
  type Text = s: seq<byte> | ValidUtf8(s)

  // -------------------------------------------------------------------------- reference definitions

  /** A Unicode scalar value: a code point that is no surrogate. */
  type Scalar = c: int | 0 <= c < 0x11_0000 && !(0xD800 <= c < 0xE000)

  /** The encoding table of section 3 of RFC 3629. */
  function EncodeScalar(c: Scalar): (s: seq<byte>)
    ensures s != []
  {
    if c < 0x80 then [c]
    else if c < 0x800 then [0xC0 + c / 0x40, 0x80 + c % 0x40]
    else if c < 0x1_0000 then [0xE0 + c / 0x1000, 0x80 + c / 0x40 % 0x40, 0x80 + c % 0x40]
    else [0xF0 + c / 0x4_0000, 0x80 + c / 0x1000 % 0x40, 0x80 + c / 0x40 % 0x40, 0x80 + c % 0x40]
  }

  function EncodeText(text: seq<Scalar>): seq<byte> {
    if text == [] then [] else EncodeScalar(text[0]) + EncodeText(text[1..])
  }

  lemma EncodedForm(c: Scalar)
    ensures var e := EncodeScalar(c);
            || (|e| == 1 && e[0] <= 0x7F)
            || (|e| == 2 && 0xC2 <= e[0] <= 0xDF && Continuation(e[1]))
            || (|e| == 3 && 0xE0 <= e[0] <= 0xEF && SecondByteFits(e[0], e[1]) && Continuation(e[2]))
            || (&& |e| == 4 && 0xF0 <= e[0] <= 0xF4 && SecondByteFits(e[0], e[1])
                && Continuation(e[2]) && Continuation(e[3]))
  {}

  lemma ScalarValid(c: Scalar, rest: seq<byte>)
    requires ValidUtf8(rest)
    ensures ValidUtf8(EncodeScalar(c) + rest)
  {
    hide ValidUtf8, EncodeScalar, SecondByteFits, Continuation;
    var e := EncodeScalar(c);
    EncodedForm(c);
    assert (e + rest)[|e|..] == rest;
    LeadDecides(e + rest);
  }

  /** One unfolding of the definition, by the length of the first character. */
  lemma LeadDecides(s: seq<byte>)
    requires s != []
    ensures s[0] <= 0x7F ==> ValidUtf8(s) == ValidUtf8(s[1..])
    ensures |s| >= 2 && 0xC2 <= s[0] <= 0xDF ==> ValidUtf8(s) == (Continuation(s[1]) && ValidUtf8(s[2..]))
    ensures |s| >= 3 && 0xE0 <= s[0] <= 0xEF ==>
              ValidUtf8(s) == (SecondByteFits(s[0], s[1]) && Continuation(s[2]) && ValidUtf8(s[3..]))
    ensures |s| >= 4 && 0xF0 <= s[0] <= 0xF4 ==>
              ValidUtf8(s)
              == (SecondByteFits(s[0], s[1]) && Continuation(s[2]) && Continuation(s[3]) && ValidUtf8(s[4..]))
    ensures ValidUtf8(s) ==>
              || s[0] <= 0x7F || (|s| >= 2 && 0xC2 <= s[0] <= 0xDF)
              || (|s| >= 3 && 0xE0 <= s[0] <= 0xEF) || (|s| >= 4 && 0xF0 <= s[0] <= 0xF4)
  {
    hide SecondByteFits, Continuation;
  }

  /** Six bits at a time. */
  lemma Sextet(a: nat, b: nat)
    requires b < 0x40
    ensures (a * 0x40 + b) / 0x40 == a && (a * 0x40 + b) % 0x40 == b
  {}

  lemma {:induction false} EncodedIsValid(text: seq<Scalar>)
    ensures ValidUtf8(EncodeText(text))
  {
    if text != [] {
      EncodedIsValid(text[1..]);
      ScalarValid(text[0], EncodeText(text[1..]));
    }
  }

  lemma ThreeBytes(x: nat, y: nat, z: nat) returns (c: Scalar)
    requires x < 0x10 && y < 0x40 && z < 0x40 && (x == 0 ==> y >= 0x20) && (x == 0xD ==> y < 0x20)
    ensures EncodeScalar(c) == [0xE0 + x, 0x80 + y, 0x80 + z]
  {
    c := (x * 0x40 + y) * 0x40 + z;
    Sextet(x * 0x40 + y, z);
    Sextet(x, y);
    assert c / 0x1000 == c / 0x40 / 0x40;
  }

  lemma FourBytes(w: nat, x: nat, y: nat, z: nat) returns (c: Scalar)
    requires w < 5 && x < 0x40 && y < 0x40 && z < 0x40 && (w == 0 ==> x >= 0x10) && (w == 4 ==> x < 0x10)
    ensures EncodeScalar(c) == [0xF0 + w, 0x80 + x, 0x80 + y, 0x80 + z]
  {
    c := ((w * 0x40 + x) * 0x40 + y) * 0x40 + z;
    Sextet((w * 0x40 + x) * 0x40 + y, z);
    Sextet(w * 0x40 + x, y);
    Sextet(w, x);
    assert c / 0x1000 == c / 0x40 / 0x40 && c / 0x4_0000 == c / 0x1000 / 0x40;
  }

  /** The scalar value a valid string starts with. */
  lemma FirstScalar(s: seq<byte>) returns (c: Scalar)
    requires ValidUtf8(s) && s != []
    ensures var n := |EncodeScalar(c)|; n <= |s| && EncodeScalar(c) == s[..n] && ValidUtf8(s[n..])
  {
    hide ValidUtf8, EncodeScalar;
    LeadDecides(s);
    var s0: int := s[0];
    if s0 <= 0x7F {
      c := s0;
      assert EncodeScalar(c) == s[..1] by { OneByte(c); }
    } else if s0 <= 0xDF {
      c := TwoBytes(s0 - 0xC0, s[1] as int - 0x80);
    } else if s0 <= 0xEF {
      c := ThreeBytes(s0 - 0xE0, s[1] as int - 0x80, s[2] as int - 0x80);
    } else {
      c := FourBytes(s0 - 0xF0, s[1] as int - 0x80, s[2] as int - 0x80, s[3] as int - 0x80);
    }
  }

  lemma OneByte(c: Scalar)
    requires c < 0x80
    ensures EncodeScalar(c) == [c]
  {}

  lemma TwoBytes(y: nat, z: nat) returns (c: Scalar)
    requires 2 <= y < 0x20 && z < 0x40
    ensures EncodeScalar(c) == [0xC0 + y, 0x80 + z]
  {
    c := y * 0x40 + z;
    Sextet(y, z);
  }

  lemma {:induction false} ValidIsEncoded(s: seq<byte>) returns (text: seq<Scalar>)
    requires ValidUtf8(s)
    ensures s == EncodeText(text)
    decreases |s|
  {
    hide ValidUtf8, EncodeScalar;
    if s == [] {
      text := [];
    } else {
      var c := FirstScalar(s);
      var n := |EncodeScalar(c)|;
      var rest := ValidIsEncoded(s[n..]);
      text := [c] + rest;
      assert text[1..] == rest && s == s[..n] + s[n..];
    }
  }

  /** The bytes accepted as text are exactly the encodings of sequences of scalar values. */
  lemma ValidExactly(s: seq<byte>)
    ensures ValidUtf8(s) <==> exists text: seq<Scalar> :: s == EncodeText(text)
  {
    if ValidUtf8(s) {
      var text := ValidIsEncoded(s);
    }
    if text: seq<Scalar> :| s == EncodeText(text) {
      EncodedIsValid(text);
    }
  }
}

/** Domain types: proposed and recorded events, expected versions, errors. */
module Types {
  import opened Bytes
  import opened Utf8

  const MAX_EVENT_SIZE: nat := 65536
  const MAX_EVENT_TYPE_LEN: nat := 256

  type Uuid = s: seq<byte> | |s| == 16 witness [0, 0, 0, 0, 0, 0, 0, 0, 0, 0, 0, 0, 0, 0, 0, 0]

  datatype ProposedEvent = ProposedEvent(
    eventId: Uuid,
    eventType: Text,
    metadata: seq<byte>,
    payload: seq<byte>)

  datatype RecordedEvent = RecordedEvent(
    eventId: Uuid,
    streamId: Uuid,
    streamVersion: u64,
    globalPosition: u64,
    recordedAt: u64,
    eventType: Text,
    metadata: seq<byte>,
    payload: seq<byte>)

  datatype ExpectedVersion = Any | NoStream | Exact(version: u64)

  datatype Error =
    | WrongExpectedVersion
    | StreamNotFound(streamId: Uuid)
    | CorruptRecord(position: nat)
    | InvalidHeader
    | EventTooLarge(size: nat)
    | InvalidArgument

  datatype Option<+T> = None | Some(value: T) {
    predicate IsFailure() { None? }

    function PropagateFailure<U>(): Option<U>
      requires None?
    {
      None
    }

    function Extract(): T
      requires Some?
    {
      value
    }
  }

  datatype Result<+T> = Ok(value: T) | Err(error: Error)
}
