/**
 * The text-encoding wrappers of utils/utils.go. The GBK decoder and encoder
 * themselves belong to a library and are parameters here; what is modelled
 * is the empty-input short cut and the error propagation around them.
 */
module Codec {
  import opened Wrappers

  newtype byte = x: int | 0 <= x < 256

  datatype CodecError = DecodeFailed | EncodeFailed

  /** Go's string(bytes), one character per byte. */
  function RawText(b: seq<byte>): (t: string)
    ensures |t| == |b| && forall i :: 0 <= i < |b| ==> t[i] as int == b[i] as int
  {
    seq(|b|, i requires 0 <= i < |b| => b[i] as int as char)
  }

  /** GbkToUtf8: empty input gives "" without consulting the decoder; a
      decoder failure is an error; otherwise the decoded text. */
  function GbkToUtf8(b: seq<byte>, decode: seq<byte> -> Option<string>): (r: Result<string, CodecError>)
    ensures |b| == 0 ==> r == Success("")
    ensures |b| > 0 ==> (r.Failure? <==> decode(b).None?)
    ensures r.Success? && |b| > 0 ==> Some(r.value) == decode(b)
  {
    if |b| == 0 then Success("")
    else match decode(b)
      case None => Failure(DecodeFailed)
      case Some(t) => Success(t)
  }

  /** Utf8ToGbk: "" gives an empty byte string without consulting the
      encoder; an encoder failure is an error. */
  function Utf8ToGbk(s: string, encode: string -> Option<seq<byte>>): (r: Result<seq<byte>, CodecError>)
    ensures s == "" ==> r == Success([])
    ensures s != "" ==> (r.Failure? <==> encode(s).None?)
    ensures r.Success? && s != "" ==> Some(r.value) == encode(s)
  {
    if s == "" then Success([])
    else match encode(s)
      case None => Failure(EncodeFailed)
      case Some(b) => Success(b)
  }
}
