/**
  The message "abc", the first example of both standards, as one padded block.
*/
module HashExample {
  import opened Bytes
  import opened HashFold

  const ABC: seq<byte> := [0x61, 0x62, 0x63]

  lemma WordValues()
    ensures ToWord(0x61626380) == 0x61626380 && ToWord(0) == 0 && ToWord(0x18) == 0x18
  {
  }

  lemma TailBytes()
    ensures BigEndian(24, 8) == [0, 0, 0, 0, 0, 0, 0, 0x18]
  {
    assert BigEndian(0, 0) == [];
    assert BigEndian(0, 1) == [0];
    assert BigEndian(0, 2) == [0, 0];
    assert BigEndian(0, 3) == [0, 0, 0];
    assert BigEndian(0, 4) == [0, 0, 0, 0];
    assert BigEndian(0, 5) == [0, 0, 0, 0, 0];
    assert BigEndian(0, 6) == [0, 0, 0, 0, 0, 0];
    assert BigEndian(0, 7) == [0, 0, 0, 0, 0, 0, 0];
  }

  /** The block is "abc", a one bit, zeros, and the length 24. */
  lemma BlockBytes()
    ensures var b := Padded(ABC);
            && |b| == BLOCK && b[0] == 0x61 && b[1] == 0x62 && b[2] == 0x63 && b[3] == 0x80 && b[63] == 0x18
            && forall i :: 4 <= i < 63 ==> b[i] == 0
  {
    TailBytes();
    assert ZeroCount(3) == 52;
    var b := ABC + [0x80] + Zeros(52) + [0, 0, 0, 0, 0, 0, 0, 0x18];
    assert Padded(ABC) == b;
  }

  /** Its sixteen words. */
  lemma BlockWords(t: nat)
    requires t < 16
    ensures WordAt(Padded(ABC), 4 * t) == if t == 0 then 0x61626380 else if t == 15 then 0x18 else 0
  {
    hide ToWord, Padded;
    BlockBytes();
    WordValues();
  }

  lemma {:induction false} FoldBlock<S>(f: (S, seq<byte>) -> S, s: S)
    ensures Fold(f, s, Padded(ABC)) == f(s, Padded(ABC))
  {
    hide Padded, Fold;
    BlockBytes();
    FoldOne(f, s, Padded(ABC));
  }

  lemma FourBytes(n: nat, a: byte, b: byte, c: byte, d: byte)
    requires n == a * 0x100_0000 + b * 0x1_0000 + c * 256 + d
    ensures BigEndian(n, 4) == [a, b, c, d]
  {
    var n3 := a * 0x1_0000 + b * 256 + c;
    var n2 := a * 256 + b;
    DivMod256(n3, d);
    DivMod256(n2, c);
    DivMod256(a, b);
    DivMod256(0, a);
    assert BigEndian(0, 0) == [];
    assert BigEndian(a, 1) == [a];
    assert BigEndian(n2, 2) == [a, b];
    assert BigEndian(n3, 3) == [a, b, c];
  }
}
