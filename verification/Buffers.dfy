/** Two buffers built in place: the growing body of an HTTP response and the hex text of a digest. */
module Buffers {
  import opened Prelude

  /* ---- the response body ---- */

  class ResponseBody {
    var body: array?<byte>
    var bodyLength: nat

    /** No body means no length; otherwise the text lies inside the block. */
    ghost predicate Valid()
      reads this
    {
      if body == null then bodyLength == 0 else bodyLength <= body.Length
    }

    ghost function Text(): Bytes
      requires Valid()
      reads this, body
    {
      if body == null then [] else body[..bodyLength]
    }

    /** Whether the block holds a terminator after the text. */
    ghost predicate Terminated()
      requires Valid()
      reads this, body
    {
      body != null && bodyLength < body.Length && body[bodyLength] == 0
    }

    constructor ()
      ensures Valid() && body == null
    {
      body, bodyLength := null, 0;
    }

    /** Append one chunk in a block of the given size. A terminator that falls outside the block is not written. */
    method Append(chunk: Bytes, size: nat)
      requires Valid() && bodyLength + |chunk| <= size
      modifies this
      ensures Valid() && body != null && fresh(body) && body.Length == size
      ensures Text() == old(Text()) + chunk && bodyLength == old(bodyLength) + |chunk|
      ensures Terminated() <==> bodyLength < size
    {
      var was, len := body, bodyLength;
      ghost var before := Text();
      var newLen := len + |chunk|;
      var tmp := new byte[size];
      if was != null {
        for i := 0 to len
          invariant tmp[..i] == was[..i]
        {
          tmp[i] := was[i];
        }
      }
      for i := 0 to |chunk|
        invariant tmp[..len + i] == before + chunk[..i]
      {
        tmp[len + i] := chunk[i];
      }
      if newLen < size {
        tmp[newLen] := 0;
      }
      assert chunk[..|chunk|] == chunk;
      body, bodyLength := tmp, newLen;
    }

    /** `ld_rest_writefunction`: the first chunk gets a block of exactly its length, every later one a byte more. So
        the terminator lies inside the block exactly if this is not the first chunk. */
    method Write(chunk: Bytes) returns (taken: nat)
      requires Valid()
      modifies this
      ensures Valid() && body != null && fresh(body)
      ensures Text() == old(Text()) + chunk && bodyLength == old(bodyLength) + |chunk|
      ensures Terminated() <==> old(body) != null
      ensures taken == |chunk|
    {
      var newLen := bodyLength + |chunk|;
      Append(chunk, if body == null then newLen else newLen + 1);
      taken := |chunk|;
    }

    /** `_ld_curl_response_string`: always a byte more than the text. */
    method WriteString(chunk: Bytes) returns (taken: nat)
      requires Valid()
      modifies this
      ensures Valid() && body != null && fresh(body)
      ensures Text() == old(Text()) + chunk && bodyLength == old(bodyLength) + |chunk|
      ensures Terminated()
      ensures taken == |chunk|
    {
      Append(chunk, bodyLength + |chunk| + 1);
      taken := |chunk|;
    }

    /** A whole transfer into a new body. Its text is the concatenation of the chunks whatever they are, and it is
        terminated inside its block exactly if there were at least two. */
    method WriteAll(chunks: seq<Bytes>)
      requires Valid() && body == null
      modifies this
      ensures Valid() && Text() == Concat(chunks) && bodyLength == |Concat(chunks)|
      ensures Terminated() <==> |chunks| >= 2
    {
      for i := 0 to |chunks|
        invariant Valid() && (body == null <==> i == 0)
        invariant Text() + Concat(chunks[i..]) == Concat(chunks)
        invariant Terminated() <==> i >= 2
      {
        var chunk := chunks[i];
        ghost var before, rest := Text(), Concat(chunks[i + 1..]);
        assert chunks[i..][1..] == chunks[i + 1..];
        assert before + (chunk + rest) == before + chunk + rest;
        var _ := Write(chunk);
      }
    }
  }

  /* ---- hex ---- */

  function HexDigit(d: nat): char
    requires d < 16
  {
    if d < 10 then '0' + d as char else 'a' + (d - 10) as char
  }

  /** `%02x`. */
  function HexByte(b: byte): string {
    [HexDigit(b as nat / 16), HexDigit(b as nat % 16)]
  }

  function HexOf(buf: Bytes): (hex: string)
    ensures |hex| == 2 * |buf|
    ensures forall c :: c in hex ==> c != '\0'
  {
    if buf == [] then [] else HexOf(buf[..|buf| - 1]) + HexByte(buf[|buf| - 1])
  }

  function DigitOf(c: char): Option<nat> {
    if '0' <= c <= '9' then Some(c as nat - '0' as nat)
    else if 'a' <= c <= 'f' then Some(c as nat - 'a' as nat + 10)
    else None
  }

  /** Reading pairs of hex digits back as bytes. */
  function ParseHex(hex: string): Option<Bytes> {
    if hex == [] then Some([])
    else if |hex| == 1 then None
    else
      var front := ParseHex(hex[..|hex| - 2]);
      var hi, lo := DigitOf(hex[|hex| - 2]), DigitOf(hex[|hex| - 1]);
      if front.None? || hi.None? || lo.None? || hi.value * 16 + lo.value >= 256 then None
      else Some(front.value + [(hi.value * 16 + lo.value) as byte])
  }

  lemma DigitRoundTrip(b: byte)
    ensures var hex := HexByte(b); DigitOf(hex[0]) == Some(b as nat / 16) && DigitOf(hex[1]) == Some(b as nat % 16)
  {
  }

  lemma HexByteSpelled(b: byte)
    ensures var digits := "0123456789abcdef"; HexByte(b) == [digits[b as nat / 16], digits[b as nat % 16]]
  {
  }

  lemma ParseOneMore(front: string, bytes: Bytes, b: byte)
    requires ParseHex(front) == Some(bytes)
    ensures ParseHex(front + HexByte(b)) == Some(bytes + [b])
  {
    var hex := front + HexByte(b);
    assert hex[..|hex| - 2] == front;
    DigitRoundTrip(b);
  }

  lemma {:induction false} HexRoundTrip(buf: Bytes)
    ensures ParseHex(HexOf(buf)) == Some(buf)
  {
    if buf != [] {
      var front, b := buf[..|buf| - 1], buf[|buf| - 1];
      HexRoundTrip(front);
      assert HexOf(buf) == HexOf(front) + HexByte(b);
      ParseOneMore(HexOf(front), front, b);
      assert buf == front + [b];
    }
  }

  /** `strcat(dst, src)`: find the terminator, copy up to and including the new one. Tells whether all of this stays
      inside the block; if not, nothing is written. `len` is where the terminator is, or the size without one. */
  method StrCat(dst: array<char>, src: string, ghost len: nat) returns (fits: bool)
    requires len <= dst.Length && (forall i :: 0 <= i < len ==> dst[i] != '\0')
    requires len < dst.Length ==> dst[len] == '\0'
    modifies dst
    ensures fits <==> len + |src| < dst.Length
    ensures fits ==> dst[..len + |src|] == old(dst[..len]) + src && dst[len + |src|] == '\0'
    ensures !fits ==> dst[..] == old(dst[..])
  {
    var end := 0;
    while end < dst.Length && dst[end] != '\0'
      invariant end <= len
    {
      end := end + 1;
    }
    if end + |src| >= dst.Length {
      return false;
    }
    for i := 0 to |src|
      invariant dst[..len + i] == old(dst[..len]) + src[..i]
    {
      dst[end + i] := src[i];
    }
    assert src[..|src|] == src;
    dst[end + |src|] := '\0';
    return true;
  }

  /** One turn of the loop of `binary2hex`: two more characters, if they fit. */
  method AppendByte(hex: array<char>, b: byte, ghost len: nat) returns (fits: bool)
    requires len <= hex.Length && (forall i :: 0 <= i < len ==> hex[i] != '\0')
    requires len < hex.Length ==> hex[len] == '\0'
    modifies hex
    ensures fits <==> len + 2 < hex.Length
    ensures fits ==> hex[..len + 2] == old(hex[..len]) + HexByte(b) && hex[len + 2] == '\0'
    ensures fits ==> forall i :: 0 <= i < len + 2 ==> hex[i] != '\0'
  {
    ghost var text := hex[..len];
    assert forall i :: 0 <= i < len ==> text[i] != '\0';
    fits := StrCat(hex, HexByte(b), len);
    if fits {
      assert forall i :: 0 <= i < len + 2 ==> hex[i] == (text + HexByte(b))[i];
    }
  }

  /** Where the first NUL is, or the length without one. */
  function FirstNul(memory: string): (n: nat)
    ensures n <= |memory|
    ensures forall i :: 0 <= i < n ==> memory[i] != '\0'
    ensures n < |memory| ==> memory[n] == '\0'
  {
    if memory == [] || memory[0] == '\0' then 0 else 1 + FirstNul(memory[1..])
  }

  lemma HexOneMore(buf: Bytes, i: nat)
    requires i < |buf|
    ensures HexOf(buf[..i + 1]) == HexOf(buf[..i]) + HexByte(buf[i])
  {
    assert buf[..i + 1][..i] == buf[..i];
  }

  /** `binary2hex`, in a block that is not cleared: `memory` is what it holds. All writes stay inside the block and
      the result is terminated there exactly if the block happens to start with a NUL; then it is 2n characters that
      read back as the n bytes. */
  method BinaryToHex(buf: Bytes, memory: string) returns (hex: array<char>, ok: bool)
    requires |memory| == 2 * |buf| + 1
    ensures fresh(hex) && hex.Length == 2 * |buf| + 1
    ensures ok <==> memory[0] == '\0'
    ensures ok ==> hex[..2 * |buf|] == HexOf(buf) && hex[2 * |buf|] == '\0'
    ensures ok ==> ParseHex(hex[..2 * |buf|]) == Some(buf)
  {
    hex := new char[|buf| * 2 + 1](i requires 0 <= i < |memory| => memory[i]);
    ghost var z := FirstNul(memory);
    var i := 0;
    while i < |buf|
      invariant 0 <= i <= |buf|
      invariant z + 2 * i <= hex.Length && (i > 0 ==> z + 2 * i < hex.Length)
      invariant forall k :: 0 <= k < z + 2 * i ==> hex[k] != '\0'
      invariant z + 2 * i < hex.Length ==> hex[z + 2 * i] == '\0'
      invariant z == 0 ==> hex[..2 * i] == HexOf(buf[..i])
    {
      HexOneMore(buf, i);
      var fits := AppendByte(hex, buf[i], z + 2 * i);
      if !fits {
        return hex, false;
      }
      i := i + 1;
    }
    assert buf[..|buf|] == buf;
    HexRoundTrip(buf);
    ok := hex[2 * |buf|] == '\0';
  }
}
