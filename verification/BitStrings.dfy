// Bit strings as comma-separated text: the printer, the parser as written, and a repaired parser.
module BitStrings {
  import opened Wrappers
  import opened CText

  function BitChar(bit: bool): char {
    if bit then '1' else '0'
  }

  // Bits joined by commas.
  function BitText(bits: seq<bool>): string {
    if bits == [] then []
    else if |bits| == 1 then [BitChar(bits[0])]
    else [BitChar(bits[0]), ','] + BitText(bits[1..])
  }

  lemma {:induction false} BitTextAt(bits: seq<bool>)
    requires bits != []
    ensures |BitText(bits)| == 2 * |bits| - 1
    ensures forall i :: 0 <= i < |bits| ==> BitText(bits)[2 * i] == BitChar(bits[i])
    ensures forall i :: 0 <= i < |bits| - 1 ==> BitText(bits)[2 * i + 1] == ','
  {
    if |bits| > 1 {
      var text, rest := BitText(bits), BitText(bits[1..]);
      BitTextAt(bits[1..]);
      forall i | 0 <= i < |bits|
        ensures text[2 * i] == BitChar(bits[i])
        ensures i < |bits| - 1 ==> text[2 * i + 1] == ','
      {
        if i > 0 {
          assert text[2 * i] == rest[2 * (i - 1)];
          assert i < |bits| - 1 ==> text[2 * i + 1] == rest[2 * (i - 1) + 1];
        }
      }
    }
  }

  // The printer's loop over 2n bytes, whose last comma becomes the terminator. An empty bit
  // string would put that terminator in front of the buffer, so the code needs n > 0.
  method PrintBitString(bits: seq<bool>) returns (buf: array<char>)
    requires bits != []
    ensures fresh(buf) && buf.Length == 2 * |bits|
    ensures buf[..2 * |bits| - 1] == BitText(bits) && buf[2 * |bits| - 1] == NUL
  {
    buf := new char[2 * |bits|](_ => NUL);
    var i := 0;
    while i < |bits|
      invariant 0 <= i <= |bits|
      invariant forall k :: 0 <= k < i ==> buf[2 * k] == BitChar(bits[k]) && buf[2 * k + 1] == ','
    {
      if bits[i] {
        buf[2 * i] := '1';
      } else {
        buf[2 * i] := '0';
      }
      buf[2 * i + 1] := ',';
      i := i + 1;
    }
    buf[2 * |bits| - 1] := NUL;
    BitTextAt(bits);
    forall k | 0 <= k < 2 * |bits| - 1
      ensures buf[k] == BitText(bits)[k]
    {
      assert k == 2 * (k / 2) || k == 2 * (k / 2) + 1;
    }
  }

  // parseBitString returns a count, or leaves its loop at the terminator without returning.
  datatype ParseResult = Count(bits: int) | NoReturn

  // Text made of pairs: a character other than '1', then a comma.
  predicate CommaPairs(raw: string) {
    && raw != [] && |raw| % 2 == 0
    && forall i :: 0 <= i < |raw| / 2 ==> raw[2 * i] != '1' && raw[2 * i + 1] == ','
  }

  // As written: '0' and every character but '1' are taken, '1' is refused, and the final size
  // test compares the count with one more than itself.
  method ParseBitString(raw: string) returns (r: ParseResult)
    requires NUL !in raw
    ensures r == if CommaPairs(raw) then NoReturn else Count(0)
  {
    var rawStrSize := (|raw| + 1) / 2;
    var i, j := 0, 0;
    if rawStrSize > 0 {
      var bitStrBuf := new char[rawStrSize];
      while i < |raw|
        invariant 0 <= i <= |raw| && i == 2 * j
        invariant forall k :: 0 <= k < j ==> raw[2 * k] != '1' && raw[2 * k + 1] == ','
        decreases |raw| - i
      {
        if raw[i] == '0' {
          bitStrBuf[j] := 0 as char;
          j := j + 1;
        } else if raw[i] != '1' {
          bitStrBuf[j] := 1 as char;
          j := j + 1;
        } else {
          assert raw[2 * (i / 2)] == '1';
          return Count(0);
        }
        i := i + 1;
        if i < |raw| && raw[i] == ',' {
          i := i + 1;
        } else if i == |raw| {
          if rawStrSize == j + 1 {
            return Count(rawStrSize);
          } else {
            return Count(0);
          }
        } else {
          assert raw[2 * ((i - 1) / 2) + 1] != ',';
          return Count(0);
        }
      }
      return NoReturn;
    } else {
      return Count(0);
    }
  }

  // A variant with its two tests put right: '1' is the other bit, and the size is compared with the count.
  method ParseBitStringRepaired(raw: string) returns (r: Option<seq<bool>>)
    requires NUL !in raw
    ensures forall bits :: bits != [] && raw == BitText(bits) ==> r == Some(bits)
    ensures (forall bits :: bits != [] ==> raw != BitText(bits)) ==> r == None
  {
    var rawStrSize := (|raw| + 1) / 2;
    var i := 0;
    var bits: seq<bool> := [];
    while i < |raw|
      invariant 0 <= i <= |raw| && i == 2 * |bits|
      invariant forall k :: 0 <= k < |bits| ==> raw[2 * k] == BitChar(bits[k]) && raw[2 * k + 1] == ','
      decreases |raw| - i
    {
      if raw[i] != '0' && raw[i] != '1' {
        NoBitText(raw, i);
        return None;
      }
      bits := bits + [raw[i] == '1'];
      i := i + 1;
      if i == |raw| {
        OnlyBitText(raw, bits);
        return if rawStrSize == |bits| then Some(bits) else None;
      }
      if raw[i] != ',' {
        NoBitText(raw, i);
        return None;
      }
      i := i + 1;
    }
    NoBitText(raw, i);
    return None;
  }

  // A character in the wrong place, or a wrong length, rules every bit string out.
  lemma NoBitText(raw: string, at: nat)
    requires at <= |raw|
    requires at == |raw| ==> |raw| % 2 == 0
    requires at < |raw| && at % 2 == 0 ==> raw[at] != '0' && raw[at] != '1'
    requires at < |raw| && at % 2 == 1 ==> raw[at] != ','
    ensures forall bits :: bits != [] ==> raw != BitText(bits)
  {
    forall bits | bits != []
      ensures raw != BitText(bits)
    {
      BitTextAt(bits);
      assert at == 2 * (at / 2) || at == 2 * (at / 2) + 1;
    }
  }

  lemma OnlyBitText(raw: string, bits: seq<bool>)
    requires bits != [] && |raw| == 2 * |bits| - 1
    requires forall k :: 0 <= k < |bits| ==> raw[2 * k] == BitChar(bits[k])
    requires forall k :: 0 <= k < |bits| - 1 ==> raw[2 * k + 1] == ','
    ensures raw == BitText(bits)
    ensures forall other :: other != [] && raw == BitText(other) ==> other == bits
  {
    BitTextAt(bits);
    forall k | 0 <= k < |raw|
      ensures raw[k] == BitText(bits)[k]
    {
      assert k == 2 * (k / 2) || k == 2 * (k / 2) + 1;
    }
    forall other | other != [] && raw == BitText(other)
      ensures other == bits
    {
      BitTextAt(other);
      forall k | 0 <= k < |bits|
        ensures other[k] == bits[k]
      {
        assert raw[2 * k] == BitChar(other[k]);
      }
    }
  }

  // Distinct bit strings print differently.
  lemma BitTextInjective(a: seq<bool>, b: seq<bool>)
    requires a != [] && b != [] && BitText(a) == BitText(b)
    ensures a == b
  {
    BitTextAt(a);
    OnlyBitText(BitText(a), a);
  }

  // No printed bit string gets through the parser as written.
  lemma PrintedRefused(bits: seq<bool>)
    requires bits != []
    ensures !CommaPairs(BitText(bits))
  {
    BitTextAt(bits);
  }
}
