/** What the decoders of the .xz format have in common: buffers and results. */
module XzBuffer {
  import opened Words

  /** What a decoder returns: more can be done, all is done, or the input is corrupt. */
  datatype Ret = XzOk | XzStreamEnd | XzDataError

  /** struct xz_buf.  in_size and out_size are the lengths of the two buffers. */
  class XzBuf {
    var input: seq<Byte>
    var inPos: nat
    var output: array<Byte>
    var outPos: nat

    constructor (input: seq<Byte>, output: array<Byte>)
      ensures this.input == input && this.output == output && inPos == 0 && outPos == 0
    {
      this.input, this.output, inPos, outPos := input, output, 0, 0;
    }

    ghost predicate Valid()
      reads this
    {
      inPos <= |input| && outPos <= output.Length
    }
  }

  /** Taking bytes in parts. */
  lemma TakeMore(s: seq<Byte>, a: nat, b: nat, c: nat)
    requires a <= b <= c <= |s|
    ensures s[a..b] + s[b..c] == s[a..c]
  {
  }
}
