/** An independent reader of binary PPM images. */
module P6 {
  import opened Abi
  import opened Bytes

  datatype Image = Image(width: nat, height: nat, body: seq<u8>)

  predicate IsDigitByte(b: u8) {
    48 <= b <= 57
  }

  /** The first position from `at` on that holds no digit. */
  function DigitsEnd(b: seq<u8>, at: nat): (end: nat)
    requires at <= |b|
    ensures at <= end <= |b|
    decreases |b| - at
  {
    if at < |b| && IsDigitByte(b[at]) then DigitsEnd(b, at + 1) else at
  }

  function NumberOf(b: seq<u8>): nat {
    if b == [] then 0
    else 10 * NumberOf(b[..|b| - 1]) + (if IsDigitByte(b[|b| - 1]) then b[|b| - 1] - 48 else 0)
  }

  /** `P6`, a line end, width, a blank, height, a line end, `255`, a line end, and the body. */
  function ReadP6(b: seq<u8>): Option<Image> {
    if |b| < 3 || b[..3] != [80, 54, 10] then None
    else
      var w := DigitsEnd(b, 3);
      if w == 3 || w >= |b| || b[w] != 32 then None
      else
        var h := DigitsEnd(b, w + 1);
        if h == w + 1 || h + 5 > |b| || b[h..h + 5] != [10, 50, 53, 53, 10] then None
        else Some(Image(NumberOf(b[3..w]), NumberOf(b[w + 1..h]), b[h + 5..]))
  }

  predicate Digits(b: seq<u8>) {
    forall i :: 0 <= i < |b| ==> IsDigitByte(b[i])
  }

  lemma {:induction false} DigitsStop(b: seq<u8>, at: nat, end: nat)
    requires at <= end < |b| && Digits(b[at..end]) && !IsDigitByte(b[end])
    ensures DigitsEnd(b, at) == end
    decreases end - at
  {
    if at < end {
      assert b[at..end][0] == b[at];
      assert b[at..end][1..] == b[at + 1..end];
      DigitsStop(b, at + 1, end);
    }
  }

  /** The parts of an image file, put together. */
  function Assemble(w: seq<u8>, h: seq<u8>, body: seq<u8>): seq<u8> {
    [80, 54, 10] + w + [32] + h + [10, 50, 53, 53, 10] + body
  }

  lemma AssembledParts(w: seq<u8>, h: seq<u8>, body: seq<u8>)
    ensures var b := Assemble(w, h, body);
            var i, j := 3 + |w|, 4 + |w| + |h|;
      && |b| == j + 5 + |body| && b[..3] == [80, 54, 10] && b[3..i] == w && b[i] == 32 && b[i + 1..j] == h
      && b[j] == 10 && b[j..j + 5] == [10, 50, 53, 53, 10] && b[j + 5..] == body
  {
  }

  lemma ReadsParts(b: seq<u8>, i: nat, j: nat)
    requires 3 < i < |b| && i + 1 < j && j + 5 <= |b|
    requires b[..3] == [80, 54, 10] && b[i] == 32 && b[j] == 10 && b[j..j + 5] == [10, 50, 53, 53, 10]
    requires Digits(b[3..i]) && Digits(b[i + 1..j])
    ensures ReadP6(b) == Some(Image(NumberOf(b[3..i]), NumberOf(b[i + 1..j]), b[j + 5..]))
  {
    DigitsStop(b, 3, i);
    DigitsStop(b, i + 1, j);
  }

  lemma ReadsAssembled(w: seq<u8>, h: seq<u8>, body: seq<u8>)
    requires w != [] && h != [] && Digits(w) && Digits(h)
    ensures ReadP6(Assemble(w, h, body)) == Some(Image(NumberOf(w), NumberOf(h), body))
  {
    AssembledParts(w, h, body);
    ReadsParts(Assemble(w, h, body), 3 + |w|, 4 + |w| + |h|);
  }

  function Ascii(s: string): seq<u8> {
    seq(|s|, i requires 0 <= i < |s| => s[i] as int % 0x100)
  }

  lemma AsciiConcat(a: string, b: string)
    ensures Ascii(a + b) == Ascii(a) + Ascii(b)
  {
  }

  lemma {:induction false} AsciiNumber(s: string)
    requires AllDigits(s)
    ensures Digits(Ascii(s)) && NumberOf(Ascii(s)) == Value(s)
  {
    if s != "" {
      var end := |s| - 1;
      AsciiNumber(s[..end]);
      assert Ascii(s)[..end] == Ascii(s[..end]);
    }
  }
}
