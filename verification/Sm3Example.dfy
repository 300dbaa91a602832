/**
  The hash of "abc" by GB/T 32905-2016, Appendix A, through its intermediate words.
*/
module Sm3Example {
  import opened Bytes
  import opened HashFold
  import opened HashExample
  import opened Sm3

  function Block(): (b: seq<byte>)
    ensures |b| == BLOCK
  {
    BlockBytes();
    Padded(ABC)
  }

  /** A word in a box, so that the words of the example are compared as terms. */
  datatype Cell = Cell(w: Word)

  function WordCell(j: nat): Cell { Cell(W(Block(), j)) }

  // ----- Message expansion -----

  /** The expansion of section 5.3.2, from its five words. */
  function Expand(w16: Cell, w9: Cell, w3: Cell, w13: Cell, w6: Cell): Cell {
    Cell(Xor3(P1(Xor3(w16.w, w9.w, Rol(w3.w, 15))), Rol(w13.w, 7), w6.w))
  }

  /** The expansion through its intermediate values. */
  lemma ExpandBy(w16: Word, w9: Word, w3: Word, w13: Word, w6: Word,
                 a: Word, b: Word, b15: Word, b23: Word, p: Word, c: Word, w: Word)
    requires Rol(w3, 15) == a && Xor3(w16, w9, a) == b && Rol(b, 15) == b15 && Rol(b, 23) == b23
    requires Xor3(b, b15, b23) == p && Rol(w13, 7) == c && Xor3(p, c, w6) == w
    ensures Expand(Cell(w16), Cell(w9), Cell(w3), Cell(w13), Cell(w6)) == Cell(w)
  {
    hide Rol, Xor3;
  }

  lemma NextWord(j: nat)
    requires j >= 16
    ensures WordCell(j) == Expand(WordCell(j - 16), WordCell(j - 9), WordCell(j - 3), WordCell(j - 13), WordCell(j - 6))
  {
    hide Xor3, Rol, P1, Block;
  }

  lemma Words0()
    ensures WordCell(0) == Cell(0x61626380) && WordCell(15) == Cell(0x18)
    ensures forall t {:trigger WordCell(t)} :: 1 <= t < 15 ==> WordCell(t) == Cell(0)
  {
    hide Padded;
    forall t {:trigger WordCell(t)} | 0 <= t < 16
      ensures WordCell(t) == if t == 0 then Cell(0x61626380) else if t == 15 then Cell(0x18) else Cell(0)
    {
      BlockWords(t);
    }
  }

  /** The eight words from `j` on. */
  ghost predicate Row(j: nat, ws: seq<Cell>) {
    |ws| == 8 && forall i :: 0 <= i < 8 ==> ws[i] == WordCell(j + i)
  }

  lemma RowWords(j: nat, ws: seq<Cell>)
    requires |ws| == 8
    ensures Row(j, ws) <==>
            && ws[0] == WordCell(j) && ws[1] == WordCell(j + 1) && ws[2] == WordCell(j + 2) && ws[3] == WordCell(j + 3)
            && ws[4] == WordCell(j + 4) && ws[5] == WordCell(j + 5) && ws[6] == WordCell(j + 6) && ws[7] == WordCell(j + 7)
  {
    hide WordCell;
  }

  lemma Mixed16()
    ensures Expand(Cell(0x61626380), Cell(0x00000000), Cell(0x00000000), Cell(0x00000000), Cell(0x00000000))
         == Cell(0x9092e200)
    ensures Expand(Cell(0x00000000), Cell(0x00000000), Cell(0x00000000), Cell(0x00000000), Cell(0x00000000))
         == Cell(0x00000000)
    ensures Expand(Cell(0x00000000), Cell(0x00000000), Cell(0x00000018), Cell(0x00000000), Cell(0x00000000))
         == Cell(0x000c0606)
    ensures Expand(Cell(0x00000000), Cell(0x00000000), Cell(0x9092e200), Cell(0x00000000), Cell(0x00000000))
         == Cell(0x719c70ed)
  {
    hide Expand;
    ExpandBy(0x61626380, 0x00000000, 0x00000000, 0x00000000, 0x00000000,
             0x00000000, 0x61626380, 0x31c030b1, 0xc030b131, 0x9092e200, 0x00000000, 0x9092e200);
    ExpandBy(0x00000000, 0x00000000, 0x00000000, 0x00000000, 0x00000000,
             0x00000000, 0x00000000, 0x00000000, 0x00000000, 0x00000000, 0x00000000, 0x00000000);
    ExpandBy(0x00000000, 0x00000000, 0x00000018, 0x00000000, 0x00000000,
             0x000c0000, 0x000c0000, 0x00000006, 0x00000600, 0x000c0606, 0x00000000, 0x000c0606);
    ExpandBy(0x00000000, 0x00000000, 0x9092e200, 0x00000000, 0x00000000,
             0x71004849, 0x71004849, 0x2424b880, 0x24b88024, 0x719c70ed, 0x00000000, 0x719c70ed);
  }

  lemma Mixed20()
    ensures Expand(Cell(0x00000000), Cell(0x00000000), Cell(0x00000000), Cell(0x00000000), Cell(0x00000000))
         == Cell(0x00000000)
    ensures Expand(Cell(0x00000000), Cell(0x00000000), Cell(0x000c0606), Cell(0x00000000), Cell(0x00000018))
         == Cell(0x8001801f)
    ensures Expand(Cell(0x00000000), Cell(0x00000000), Cell(0x719c70ed), Cell(0x00000000), Cell(0x9092e200))
         == Cell(0x939f7da9)
    ensures Expand(Cell(0x00000000), Cell(0x00000000), Cell(0x00000000), Cell(0x00000000), Cell(0x00000000))
         == Cell(0x00000000)
  {
    hide Expand;
    ExpandBy(0x00000000, 0x00000000, 0x00000000, 0x00000000, 0x00000000,
             0x00000000, 0x00000000, 0x00000000, 0x00000000, 0x00000000, 0x00000000, 0x00000000);
    ExpandBy(0x00000000, 0x00000000, 0x000c0606, 0x00000000, 0x00000018,
             0x03030006, 0x03030006, 0x80030181, 0x03018180, 0x80018007, 0x00000000, 0x8001801f);
    ExpandBy(0x00000000, 0x00000000, 0x719c70ed, 0x00000000, 0x9092e200,
             0x3876b8ce, 0x3876b8ce, 0x5c671c3b, 0x671c3b5c, 0x030d9fa9, 0x00000000, 0x939f7da9);
    ExpandBy(0x00000000, 0x00000000, 0x00000000, 0x00000000, 0x00000000,
             0x00000000, 0x00000000, 0x00000000, 0x00000000, 0x00000000, 0x00000000, 0x00000000);
  }

  function Row16(): seq<Cell> {
    [Cell(0x9092e200), Cell(0x00000000), Cell(0x000c0606), Cell(0x719c70ed),
     Cell(0x00000000), Cell(0x8001801f), Cell(0x939f7da9), Cell(0x00000000)]
  }

  lemma Words16()
    ensures Row(16, Row16())
  {
    hide WordCell, Expand, Row;
    Words0();
    Mixed16();
    Mixed20();
    NextWord(16);
    NextWord(17);
    NextWord(18);
    NextWord(19);
    NextWord(20);
    NextWord(21);
    NextWord(22);
    NextWord(23);
    RowWords(16, Row16());
  }

  lemma Mixed24()
    ensures Expand(Cell(0x00000000), Cell(0x00000018), Cell(0x8001801f), Cell(0x00000000), Cell(0x000c0606))
         == Cell(0x2c6fa1f9)
    ensures Expand(Cell(0x00000000), Cell(0x9092e200), Cell(0x939f7da9), Cell(0x00000000), Cell(0x719c70ed))
         == Cell(0xadaaef14)
    ensures Expand(Cell(0x00000000), Cell(0x00000000), Cell(0x00000000), Cell(0x00000000), Cell(0x00000000))
         == Cell(0x00000000)
    ensures Expand(Cell(0x00000000), Cell(0x000c0606), Cell(0x2c6fa1f9), Cell(0x00000000), Cell(0x8001801f))
         == Cell(0x0001801e)
  {
    hide Expand;
    ExpandBy(0x00000000, 0x00000018, 0x8001801f, 0x00000000, 0x000c0606,
             0xc00fc000, 0xc00fc018, 0xe00c6007, 0x0c6007e0, 0x2c63a7ff, 0x00000000, 0x2c6fa1f9);
    ExpandBy(0x00000000, 0x9092e200, 0x939f7da9, 0x00000000, 0x719c70ed,
             0xbed4c9cf, 0x2e462bcf, 0x15e79723, 0xe7972315, 0xdc369ff9, 0x00000000, 0xadaaef14);
    ExpandBy(0x00000000, 0x00000000, 0x00000000, 0x00000000, 0x00000000,
             0x00000000, 0x00000000, 0x00000000, 0x00000000, 0x00000000, 0x00000000, 0x00000000);
    ExpandBy(0x00000000, 0x000c0606, 0x2c6fa1f9, 0x00000000, 0x8001801f,
             0xd0fc9637, 0xd0f09031, 0x4818e878, 0x18e87848, 0x80000001, 0x00000000, 0x0001801e);
  }

  lemma Mixed28()
    ensures Expand(Cell(0x00000000), Cell(0x719c70ed), Cell(0xadaaef14), Cell(0x00000018), Cell(0x939f7da9))
         == Cell(0x9a965f89)
    ensures Expand(Cell(0x00000000), Cell(0x00000000), Cell(0x00000000), Cell(0x9092e200), Cell(0x00000000))
         == Cell(0x49710048)
    ensures Expand(Cell(0x00000000), Cell(0x8001801f), Cell(0x0001801e), Cell(0x00000000), Cell(0x2c6fa1f9))
         == Cell(0x23ce86a1)
    ensures Expand(Cell(0x00000018), Cell(0x939f7da9), Cell(0x9a965f89), Cell(0x000c0606), Cell(0xadaaef14))
         == Cell(0xb2d12f1b)
  {
    hide Expand;
    ExpandBy(0x00000000, 0x719c70ed, 0xadaaef14, 0x00000018, 0x939f7da9,
             0x778a56d5, 0x06162638, 0x131c030b, 0x1c030b13, 0x09092e20, 0x00000c00, 0x9a965f89);
    ExpandBy(0x00000000, 0x00000000, 0x00000000, 0x9092e200, 0x00000000,
             0x00000000, 0x00000000, 0x00000000, 0x00000000, 0x00000000, 0x49710048, 0x49710048);
    ExpandBy(0x00000000, 0x8001801f, 0x0001801e, 0x00000000, 0x2c6fa1f9,
             0xc00f0000, 0x400e801f, 0x400fa007, 0x0fa00740, 0x0fa12758, 0x00000000, 0x23ce86a1);
    ExpandBy(0x00000018, 0x939f7da9, 0x9a965f89, 0x000c0606, 0xadaaef14,
             0x2fc4cd4b, 0xbc5bb0fa, 0xd87d5e2d, 0x7d5e2dd8, 0x1978c30f, 0x06030300, 0xb2d12f1b);
  }

  function Row24(): seq<Cell> {
    [Cell(0x2c6fa1f9), Cell(0xadaaef14), Cell(0x00000000), Cell(0x0001801e),
     Cell(0x9a965f89), Cell(0x49710048), Cell(0x23ce86a1), Cell(0xb2d12f1b)]
  }

  lemma Words24()
    ensures Row(24, Row24())
  {
    hide WordCell, Expand, Row;
    Words0();
    Words16();
    RowWords(16, Row16());
    Mixed24();
    Mixed28();
    NextWord(24);
    NextWord(25);
    NextWord(26);
    NextWord(27);
    NextWord(28);
    NextWord(29);
    NextWord(30);
    NextWord(31);
    RowWords(24, Row24());
  }

  lemma Mixed32()
    ensures Expand(Cell(0x9092e200), Cell(0x00000000), Cell(0x49710048), Cell(0x719c70ed), Cell(0x00000000))
         == Cell(0xe1dae338)
    ensures Expand(Cell(0x00000000), Cell(0x2c6fa1f9), Cell(0x23ce86a1), Cell(0x00000000), Cell(0x0001801e))
         == Cell(0xf8061807)
    ensures Expand(Cell(0x000c0606), Cell(0xadaaef14), Cell(0xb2d12f1b), Cell(0x8001801f), Cell(0x9a965f89))
         == Cell(0x055d68be)
    ensures Expand(Cell(0x719c70ed), Cell(0x00000000), Cell(0xe1dae338), Cell(0x939f7da9), Cell(0x49710048))
         == Cell(0x86cfd481)
  {
    hide Expand;
    ExpandBy(0x9092e200, 0x00000000, 0x49710048, 0x719c70ed, 0x00000000,
             0x802424b8, 0x10b6c6b8, 0x635c085b, 0x5c085b63, 0x2fe29580, 0xce3876b8, 0xe1dae338);
    ExpandBy(0x00000000, 0x2c6fa1f9, 0x23ce86a1, 0x00000000, 0x0001801e,
             0x435091e7, 0x6f3f301e, 0x980f379f, 0x0f379f98, 0xf8079819, 0x00000000, 0xf8061807);
    ExpandBy(0x000c0606, 0xadaaef14, 0xb2d12f1b, 0x8001801f, 0x9a965f89,
             0x978dd968, 0x3a2b307a, 0x983d1d15, 0x3d1d1598, 0x9f0b38f7, 0x00c00fc0, 0x055d68be);
    ExpandBy(0x719c70ed, 0x00000000, 0xe1dae338, 0x939f7da9, 0x49710048,
             0x719c70ed, 0x00000000, 0x00000000, 0x00000000, 0x00000000, 0xcfbed4c9, 0x86cfd481);
  }

  lemma Mixed36()
    ensures Expand(Cell(0x00000000), Cell(0x0001801e), Cell(0xf8061807), Cell(0x00000000), Cell(0x23ce86a1))
         == Cell(0x1f447d83)
    ensures Expand(Cell(0x8001801f), Cell(0x9a965f89), Cell(0x055d68be), Cell(0x2c6fa1f9), Cell(0xb2d12f1b))
         == Cell(0xd9023dbf)
    ensures Expand(Cell(0x939f7da9), Cell(0x49710048), Cell(0x86cfd481), Cell(0xadaaef14), Cell(0xe1dae338))
         == Cell(0x185898e0)
    ensures Expand(Cell(0x00000000), Cell(0x23ce86a1), Cell(0x1f447d83), Cell(0x00000000), Cell(0xf8061807))
         == Cell(0xe0061807)
  {
    hide Expand;
    ExpandBy(0x00000000, 0x0001801e, 0xf8061807, 0x00000000, 0x23ce86a1,
             0x0c03fc03, 0x0c027c1d, 0x3e0e8601, 0x0e86013e, 0x3c8afb22, 0x00000000, 0x1f447d83);
    ExpandBy(0x8001801f, 0x9a965f89, 0x055d68be, 0x2c6fa1f9, 0xb2d12f1b,
             0xb45f02ae, 0xaec8dd38, 0x6e9c5764, 0x9c57646e, 0x5c03ee32, 0x37d0fc96, 0xd9023dbf);
    ExpandBy(0x939f7da9, 0x49710048, 0x86cfd481, 0xadaaef14, 0xe1dae338,
             0xea40c367, 0x30aebe86, 0x5f431857, 0x4318575f, 0x2cf5f18e, 0xd5778a56, 0x185898e0);
    ExpandBy(0x00000000, 0x23ce86a1, 0x1f447d83, 0x00000000, 0xf8061807,
             0x3ec18fa2, 0x1d0f0903, 0x84818e87, 0x818e8784, 0x18000000, 0x00000000, 0xe0061807);
  }

  function Row32(): seq<Cell> {
    [Cell(0xe1dae338), Cell(0xf8061807), Cell(0x055d68be), Cell(0x86cfd481),
     Cell(0x1f447d83), Cell(0xd9023dbf), Cell(0x185898e0), Cell(0xe0061807)]
  }

  lemma Words32()
    ensures Row(32, Row32())
  {
    hide WordCell, Expand, Row;
    Words16();
    RowWords(16, Row16());
    Words24();
    RowWords(24, Row24());
    Mixed32();
    Mixed36();
    NextWord(32);
    NextWord(33);
    NextWord(34);
    NextWord(35);
    NextWord(36);
    NextWord(37);
    NextWord(38);
    NextWord(39);
    RowWords(32, Row32());
  }

  lemma Mixed40()
    ensures Expand(Cell(0x2c6fa1f9), Cell(0xb2d12f1b), Cell(0xd9023dbf), Cell(0x0001801e), Cell(0x055d68be))
         == Cell(0x050df55c)
    ensures Expand(Cell(0xadaaef14), Cell(0xe1dae338), Cell(0x185898e0), Cell(0x9a965f89), Cell(0x86cfd481))
         == Cell(0xcde0104c)
    ensures Expand(Cell(0x00000000), Cell(0xf8061807), Cell(0xe0061807), Cell(0x49710048), Cell(0x1f447d83))
         == Cell(0xa5b9c955)
    ensures Expand(Cell(0x0001801e), Cell(0x055d68be), Cell(0x050df55c), Cell(0x23ce86a1), Cell(0xd9023dbf))
         == Cell(0xa7df0184)
  {
    hide Expand;
    ExpandBy(0x2c6fa1f9, 0xb2d12f1b, 0xd9023dbf, 0x0001801e, 0x055d68be,
             0x1edfec81, 0x80616263, 0xb131c030, 0x31c030b1, 0x009092e2, 0x00c00f00, 0x050df55c);
    ExpandBy(0xadaaef14, 0xe1dae338, 0x185898e0, 0x9a965f89, 0x86cfd481,
             0x4c700c2c, 0x00000000, 0x00000000, 0x00000000, 0x00000000, 0x4b2fc4cd, 0xcde0104c);
    ExpandBy(0x00000000, 0xf8061807, 0xe0061807, 0x49710048, 0x1f447d83,
             0x0c03f003, 0xf405e804, 0xf4027a02, 0x027a02f4, 0x027d90f2, 0xb8802424, 0xa5b9c955);
    ExpandBy(0x0001801e, 0x055d68be, 0x050df55c, 0x23ce86a1, 0xd9023dbf,
             0xfaae0286, 0xfff2ea26, 0x75137ff9, 0x137ff975, 0x999e6caa, 0xe7435091, 0xa7df0184);
  }

  lemma Mixed44()
    ensures Expand(Cell(0x9a965f89), Cell(0x86cfd481), Cell(0xcde0104c), Cell(0xb2d12f1b), Cell(0x185898e0))
         == Cell(0x6e46cd08)
    ensures Expand(Cell(0x49710048), Cell(0x1f447d83), Cell(0xa5b9c955), Cell(0xe1dae338), Cell(0xe0061807))
         == Cell(0xe3babdf8)
    ensures Expand(Cell(0x23ce86a1), Cell(0xd9023dbf), Cell(0xa7df0184), Cell(0xf8061807), Cell(0x050df55c))
         == Cell(0x70caa422)
    ensures Expand(Cell(0xb2d12f1b), Cell(0x185898e0), Cell(0x6e46cd08), Cell(0x055d68be), Cell(0xcde0104c))
         == Cell(0x0353af50)
  {
    hide Expand;
    ExpandBy(0x9a965f89, 0x86cfd481, 0xcde0104c, 0xb2d12f1b, 0x185898e0,
             0x082666f0, 0x147fedf8, 0xf6fc0a3f, 0xfc0a3ff6, 0x1e89d831, 0x68978dd9, 0x6e46cd08);
    ExpandBy(0x49710048, 0x1f447d83, 0xa5b9c955, 0xe1dae338, 0xe0061807,
             0xe4aad2dc, 0xb29faf17, 0xd78bd94f, 0x8bd94fd7, 0xeecd398f, 0xed719c70, 0xe3babdf8);
    ExpandBy(0x23ce86a1, 0xd9023dbf, 0xa7df0184, 0xf8061807, 0x050df55c,
             0x80c253ef, 0x7a0ee8f1, 0x7478bd07, 0x78bd0774, 0x76cb5282, 0x030c03fc, 0x70caa422);
    ExpandBy(0xb2d12f1b, 0x185898e0, 0x6e46cd08, 0x055d68be, 0xcde0104c,
             0x66843723, 0xcc0d80d8, 0xc06c6606, 0x6c6606c0, 0x6007e01e, 0xaeb45f02, 0x0353af50);
  }

  function Row40(): seq<Cell> {
    [Cell(0x050df55c), Cell(0xcde0104c), Cell(0xa5b9c955), Cell(0xa7df0184),
     Cell(0x6e46cd08), Cell(0xe3babdf8), Cell(0x70caa422), Cell(0x0353af50)]
  }

  lemma Words40()
    ensures Row(40, Row40())
  {
    hide WordCell, Expand, Row;
    Words24();
    RowWords(24, Row24());
    Words32();
    RowWords(32, Row32());
    Mixed40();
    Mixed44();
    NextWord(40);
    NextWord(41);
    NextWord(42);
    NextWord(43);
    NextWord(44);
    NextWord(45);
    NextWord(46);
    NextWord(47);
    RowWords(40, Row40());
  }

  lemma Mixed48()
    ensures Expand(Cell(0xe1dae338), Cell(0xe0061807), Cell(0xe3babdf8), Cell(0x86cfd481), Cell(0xa5b9c955))
         == Cell(0xa92dbca1)
    ensures Expand(Cell(0xf8061807), Cell(0x050df55c), Cell(0x70caa422), Cell(0x1f447d83), Cell(0xa7df0184))
         == Cell(0x5f33cfd2)
    ensures Expand(Cell(0x055d68be), Cell(0xcde0104c), Cell(0x0353af50), Cell(0xd9023dbf), Cell(0x6e46cd08))
         == Cell(0xe16f6e89)
    ensures Expand(Cell(0x86cfd481), Cell(0xa5b9c955), Cell(0xa92dbca1), Cell(0x185898e0), Cell(0xe3babdf8))
         == Cell(0xf70fe941)
  {
    hide Expand;
    ExpandBy(0xe1dae338, 0xe0061807, 0xe3babdf8, 0x86cfd481, 0xa5b9c955,
             0x5efc71dd, 0x5f208ae2, 0x45712f90, 0x712f9045, 0x6b7e3537, 0x67ea40c3, 0xa92dbca1);
    ExpandBy(0xf8061807, 0x050df55c, 0x70caa422, 0x1f447d83, 0xa7df0184,
             0x52113865, 0xaf1ad53e, 0x6a9f578d, 0x9f578d6a, 0x5ad20fd9, 0xa23ec18f, 0x5f33cfd2);
    ExpandBy(0x055d68be, 0xcde0104c, 0x0353af50, 0xd9023dbf, 0x6e46cd08,
             0xd7a801a9, 0x1f15795b, 0xbcad8f8a, 0xad8f8abc, 0x0e377c6d, 0x811edfec, 0xe16f6e89);
    ExpandBy(0x86cfd481, 0xa5b9c955, 0xa92dbca1, 0x185898e0, 0xe3babdf8,
             0xde50d496, 0xfd26c942, 0x64a17e93, 0xa17e9364, 0x38f924b5, 0x2c4c700c, 0xf70fe941);
  }

  lemma Mixed52()
    ensures Expand(Cell(0x1f447d83), Cell(0xa7df0184), Cell(0x5f33cfd2), Cell(0xe0061807), Cell(0x70caa422))
         == Cell(0xca5462dc)
    ensures Expand(Cell(0xd9023dbf), Cell(0x6e46cd08), Cell(0xe16f6e89), Cell(0x050df55c), Cell(0x0353af50))
         == Cell(0x85a90152)
    ensures Expand(Cell(0x185898e0), Cell(0xe3babdf8), Cell(0xf70fe941), Cell(0xcde0104c), Cell(0xa92dbca1))
         == Cell(0x76af6296)
    ensures Expand(Cell(0xe0061807), Cell(0x70caa422), Cell(0xca5462dc), Cell(0xa5b9c955), Cell(0x5f33cfd2))
         == Cell(0xc922bdb2)
  {
    hide Expand;
    ExpandBy(0x1f447d83, 0xa7df0184, 0x5f33cfd2, 0xe0061807, 0x70caa422,
             0xe7e92f99, 0x5f72539e, 0x29cf2fb9, 0xcf2fb929, 0xb992c50e, 0x030c03f0, 0xca5462dc);
    ExpandBy(0xd9023dbf, 0x6e46cd08, 0xe16f6e89, 0x050df55c, 0x0353af50,
             0xb744f0b7, 0x00000000, 0x00000000, 0x00000000, 0x00000000, 0x86faae02, 0x85a90152);
    ExpandBy(0x185898e0, 0xe3babdf8, 0xf70fe941, 0xcde0104c, 0xa92dbca1,
             0xf4a0fb87, 0x0f42de9f, 0x6f4f87a1, 0x4f87a16f, 0x2f8af851, 0xf0082666, 0x76af6296);
    ExpandBy(0xe0061807, 0x70caa422, 0xca5462dc, 0xa5b9c955, 0x5f33cfd2,
             0x316e652a, 0xa1a2d90f, 0x6c87d0d1, 0x87d0d16c, 0x4af5d8b2, 0xdce4aad2, 0xc922bdb2);
  }

  function Row48(): seq<Cell> {
    [Cell(0xa92dbca1), Cell(0x5f33cfd2), Cell(0xe16f6e89), Cell(0xf70fe941),
     Cell(0xca5462dc), Cell(0x85a90152), Cell(0x76af6296), Cell(0xc922bdb2)]
  }

  lemma Words48()
    ensures Row(48, Row48())
  {
    hide WordCell, Expand, Row;
    Words32();
    RowWords(32, Row32());
    Words40();
    RowWords(40, Row40());
    Mixed48();
    Mixed52();
    NextWord(48);
    NextWord(49);
    NextWord(50);
    NextWord(51);
    NextWord(52);
    NextWord(53);
    NextWord(54);
    NextWord(55);
    RowWords(48, Row48());
  }

  lemma Mixed56()
    ensures Expand(Cell(0x050df55c), Cell(0x0353af50), Cell(0x85a90152), Cell(0xa7df0184), Cell(0xe16f6e89))
         == Cell(0x68378cf5)
    ensures Expand(Cell(0xcde0104c), Cell(0xa92dbca1), Cell(0x76af6296), Cell(0x6e46cd08), Cell(0xf70fe941))
         == Cell(0x97585344)
    ensures Expand(Cell(0xa5b9c955), Cell(0x5f33cfd2), Cell(0xc922bdb2), Cell(0xe3babdf8), Cell(0xca5462dc))
         == Cell(0x09008723)
    ensures Expand(Cell(0xa7df0184), Cell(0xe16f6e89), Cell(0x68378cf5), Cell(0x70caa422), Cell(0x85a90152))
         == Cell(0x86faee74)
  {
    hide Expand;
    ExpandBy(0x050df55c, 0x0353af50, 0x85a90152, 0xa7df0184, 0xe16f6e89,
             0x80a942d4, 0x86f718d8, 0x8c6c437b, 0x6c437b8c, 0x66d8202f, 0xef80c253, 0x68378cf5);
    ExpandBy(0xcde0104c, 0xa92dbca1, 0x76af6296, 0x6e46cd08, 0xf70fe941,
             0xb14b3b57, 0xd58697ba, 0x4bdd6ac3, 0xdd6ac34b, 0x43313e32, 0x23668437, 0x97585344);
    ExpandBy(0xa5b9c955, 0x5f33cfd2, 0xc922bdb2, 0xe3babdf8, 0xca5462dc,
             0x5ed96491, 0xa4536216, 0xb10b5229, 0x0b5229b1, 0x1e0a198e, 0xdd5efc71, 0x09008723);
    ExpandBy(0xa7df0184, 0xe16f6e89, 0x68378cf5, 0x70caa422, 0x85a90152,
             0xc67ab41b, 0x80cadb16, 0x6d8b4065, 0x8b40656d, 0x6601fe1e, 0x65521138, 0x86faee74);
  }

  lemma Mixed60()
    ensures Expand(Cell(0x6e46cd08), Cell(0xf70fe941), Cell(0x97585344), Cell(0x0353af50), Cell(0x76af6296))
         == Cell(0x2ab908b0)
    ensures Expand(Cell(0xe3babdf8), Cell(0xca5462dc), Cell(0x09008723), Cell(0xa92dbca1), Cell(0xc922bdb2))
         == Cell(0x4a64bc50)
    ensures Expand(Cell(0x70caa422), Cell(0x85a90152), Cell(0x86faee74), Cell(0x5f33cfd2), Cell(0x68378cf5))
         == Cell(0x864e6e08)
    ensures Expand(Cell(0x0353af50), Cell(0x76af6296), Cell(0x2ab908b0), Cell(0xe16f6e89), Cell(0x97585344))
         == Cell(0xf07e6590)
  {
    hide Expand;
    ExpandBy(0x6e46cd08, 0xf70fe941, 0x97585344, 0x0353af50, 0x76af6296,
             0x29a24bac, 0xb0eb6fe5, 0xb7f2d875, 0xf2d875b7, 0xf5c1c227, 0xa9d7a801, 0x2ab908b0);
    ExpandBy(0xe3babdf8, 0xca5462dc, 0x09008723, 0xa92dbca1, 0xc922bdb2,
             0x43918480, 0x6a7f5ba4, 0xadd2353f, 0xd2353fad, 0x15985136, 0x96de50d4, 0x4a64bc50);
    ExpandBy(0x70caa422, 0x85a90152, 0x86faee74, 0x5f33cfd2, 0x68378cf5,
             0x773a437d, 0x8259e60d, 0xf306c12c, 0x06c12cf3, 0x779e0bd2, 0x99e7e92f, 0x864e6e08);
    ExpandBy(0x0353af50, 0x76af6296, 0x2ab908b0, 0xe16f6e89, 0x97585344,
             0x8458155c, 0xf1a4d89a, 0x6c4d78d2, 0x4d78d26c, 0xd0917224, 0xb7b744f0, 0xf07e6590);
  }

  function Row56(): seq<Cell> {
    [Cell(0x68378cf5), Cell(0x97585344), Cell(0x09008723), Cell(0x86faee74),
     Cell(0x2ab908b0), Cell(0x4a64bc50), Cell(0x864e6e08), Cell(0xf07e6590)]
  }

  lemma Words56()
    ensures Row(56, Row56())
  {
    hide WordCell, Expand, Row;
    Words40();
    RowWords(40, Row40());
    Words48();
    RowWords(48, Row48());
    Mixed56();
    Mixed60();
    NextWord(56);
    NextWord(57);
    NextWord(58);
    NextWord(59);
    NextWord(60);
    NextWord(61);
    NextWord(62);
    NextWord(63);
    RowWords(56, Row56());
  }

  lemma Mixed64()
    ensures Expand(Cell(0xa92dbca1), Cell(0xc922bdb2), Cell(0x4a64bc50), Cell(0xf70fe941), Cell(0x09008723))
         == Cell(0x325c8f78)
    ensures Expand(Cell(0x5f33cfd2), Cell(0x68378cf5), Cell(0x864e6e08), Cell(0xca5462dc), Cell(0x86faee74))
         == Cell(0xaccb8011)
    ensures Expand(Cell(0xe16f6e89), Cell(0x97585344), Cell(0xf07e6590), Cell(0x85a90152), Cell(0x2ab908b0))
         == Cell(0xe11db9dd)
    ensures Expand(Cell(0xf70fe941), Cell(0x09008723), Cell(0x325c8f78), Cell(0x76af6296), Cell(0x4a64bc50))
         == Cell(0xb99c0545)
  {
    hide Expand;
    ExpandBy(0xa92dbca1, 0xc922bdb2, 0x4a64bc50, 0xf70fe941, 0x09008723,
             0x5e282532, 0x3e272421, 0x92109f13, 0x109f1392, 0xbca8a8a0, 0x87f4a0fb, 0x325c8f78);
    ExpandBy(0x5f33cfd2, 0x68378cf5, 0x864e6e08, 0xca5462dc, 0x86faee74,
             0x37044327, 0x00000000, 0x00000000, 0x00000000, 0x00000000, 0x2a316e65, 0xaccb8011);
    ExpandBy(0xe16f6e89, 0x97585344, 0xf07e6590, 0x85a90152, 0x2ab908b0,
             0x32c8783f, 0x44ff45f2, 0xa2f9227f, 0xf9227fa2, 0x1f24182f, 0xd480a942, 0xe11db9dd);
    ExpandBy(0xf70fe941, 0x09008723, 0x325c8f78, 0x76af6296, 0x4a64bc50,
             0x47bc192e, 0xb9b3774c, 0xbba65cd9, 0xa65cd9bb, 0xa449f22e, 0x57b14b3b, 0xb99c0545);
  }

  lemma Mixed68()
    ensures Expand(Cell(0xca5462dc), Cell(0x86faee74), Cell(0xaccb8011), Cell(0xc922bdb2), Cell(0x864e6e08))
         == Cell(0xd01678df)
    ensures Expand(Cell(0x85a90152), Cell(0x2ab908b0), Cell(0xe11db9dd), Cell(0x68378cf5), Cell(0xf07e6590))
         == Cell(0x52c920cb)
    ensures Expand(Cell(0x76af6296), Cell(0x4a64bc50), Cell(0xb99c0545), Cell(0x97585344), Cell(0x325c8f78))
         == Cell(0x2507048e)
    ensures Expand(Cell(0xc922bdb2), Cell(0x864e6e08), Cell(0xd01678df), Cell(0x09008723), Cell(0xaccb8011))
         == Cell(0x1aea1238)
  {
    hide Expand;
    ExpandBy(0xca5462dc, 0x86faee74, 0xaccb8011, 0xc922bdb2, 0x864e6e08,
             0xc008d665, 0x8ca65acd, 0x2d66c653, 0x66c6532d, 0xc706cfb3, 0x915ed964, 0xd01678df);
    ExpandBy(0x85a90152, 0x2ab908b0, 0xe11db9dd, 0x68378cf5, 0xf07e6590,
             0xdceef08e, 0x73fef96c, 0x7cb639ff, 0xb639ff7c, 0xb9713fef, 0x1bc67ab4, 0x52c920cb);
    ExpandBy(0x76af6296, 0x4a64bc50, 0xb99c0545, 0x97585344, 0x325c8f78,
             0x02a2dcce, 0x3e690208, 0x81041f34, 0x041f3481, 0xbb7229bd, 0xac29a24b, 0x2507048e);
    ExpandBy(0xc922bdb2, 0x864e6e08, 0xd01678df, 0x09008723, 0xaccb8011,
             0x3c6fe80b, 0x73033bb1, 0x9dd8b981, 0xd8b9819d, 0x366203ad, 0x80439184, 0x1aea1238);
  }

  function Row64(): seq<Cell> {
    [Cell(0x325c8f78), Cell(0xaccb8011), Cell(0xe11db9dd), Cell(0xb99c0545),
     Cell(0xd01678df), Cell(0x52c920cb), Cell(0x2507048e), Cell(0x1aea1238)]
  }

  lemma Words64()
    ensures Row(64, Row64())
  {
    hide WordCell, Expand, Row;
    Words48();
    RowWords(48, Row48());
    Words56();
    RowWords(56, Row56());
    Mixed64();
    Mixed68();
    NextWord(64);
    NextWord(65);
    NextWord(66);
    NextWord(67);
    NextWord(68);
    NextWord(69);
    NextWord(70);
    NextWord(71);
    RowWords(64, Row64());
  }

  // ----- Rounds -----

  /** A round of section 5.3.3 from the words j and j + 4. */
  function RoundCells(r: Regs, j: nat, w: Cell, w4: Cell): Regs { Round(r, j, w.w, Xor(w.w, w4.w)) }

  function RoundsOf(j: nat): Regs { Rounds(IV, Block(), j) }

  lemma NextRound(j: nat)
    ensures RoundsOf(j + 1) == RoundCells(RoundsOf(j), j, WordCell(j), WordCell(j + 4))
  {
    hide W, Round, Xor, Block;
  }

  lemma NoRounds()
    ensures RoundsOf(0) == IV
  {
  }

  /** The intermediate values of a round. */
  datatype Parts =
    Parts(turn: nat, constant: Word, a12: Word, sum: Word, ss1: Word, ss2: Word, w': Word, ff: Word, gg: Word, tt2: Word)

  predicate Works(r: Regs, j: nat, w: Word, w4: Word, p: Parts, r': Regs) {
    && j % 32 == p.turn && Rol(T(j), p.turn) == p.constant && Rol(r.a, 12) == p.a12 && Add(p.a12, r.e) == p.sum
    && Rol(Add(p.sum, p.constant), 7) == p.ss1 && Xor(p.ss1, p.a12) == p.ss2 && Xor(w, w4) == p.w'
    && FF(j, r.a, r.b, r.c) == p.ff && GG(j, r.e, r.f, r.g) == p.gg && Add4(p.gg, r.h, p.ss1, w) == p.tt2
    && r' == Regs(Add4(p.ff, r.d, p.ss2, p.w'), r.a, Rol(r.b, 9), r.c, P0(p.tt2), r.e, Rol(r.f, 19), r.g)
  }

  lemma RoundBy(r: Regs, j: nat, w: Word, w4: Word, p: Parts, r': Regs)
    requires Works(r, j, w, w4, p, r')
    ensures RoundCells(r, j, Cell(w), Cell(w4)) == r'
  {
    hide Rol, T, Add, Xor, FF, GG, Add4, P0;
  }

  lemma Line0()
    ensures RoundCells(Regs(0x7380166f, 0x4914b2b9, 0x172442d7, 0xda8a0600, 0xa96f30bc, 0x163138aa, 0xe38dee4d, 0xb0fb0e4e),
                       0, Cell(0x61626380), Cell(0x00000000))
         == Regs(0xb9edc12b, 0x7380166f, 0x29657292, 0x172442d7, 0xb2ad29f4, 0xa96f30bc, 0xc550b189, 0xe38dee4d)
  {
    hide RoundCells;
    RoundBy(Regs(0x7380166f, 0x4914b2b9, 0x172442d7, 0xda8a0600, 0xa96f30bc, 0x163138aa, 0xe38dee4d, 0xb0fb0e4e),
            0, 0x61626380, 0x00000000,
            Parts(0, 0x79cc4519, 0x0166f738, 0xaad627f4, 0x51368692, 0x505071aa,
                  0x61626380, 0x2db0e601, 0x5cd3e65b, 0xc067debb),
            Regs(0xb9edc12b, 0x7380166f, 0x29657292, 0x172442d7, 0xb2ad29f4, 0xa96f30bc, 0xc550b189, 0xe38dee4d));
  }

  lemma Line1()
    ensures RoundCells(Regs(0xb9edc12b, 0x7380166f, 0x29657292, 0x172442d7, 0xb2ad29f4, 0xa96f30bc, 0xc550b189, 0xe38dee4d),
                       1, Cell(0x00000000), Cell(0x00000000))
         == Regs(0xea52428c, 0xb9edc12b, 0x002cdee7, 0x29657292, 0xac353a23, 0xb2ad29f4, 0x85e54b79, 0xc550b189)
  {
    hide RoundCells;
    RoundBy(Regs(0xb9edc12b, 0x7380166f, 0x29657292, 0x172442d7, 0xb2ad29f4, 0xa96f30bc, 0xc550b189, 0xe38dee4d),
            1, 0x00000000, 0x00000000,
            Parts(1, 0xf3988a32, 0xdc12bb9e, 0x8ebfe592, 0x2c37e241, 0xf02559df,
                  0x00000000, 0xe308a5d6, 0xde92a8c1, 0xee58794f),
            Regs(0xea52428c, 0xb9edc12b, 0x002cdee7, 0x29657292, 0xac353a23, 0xb2ad29f4, 0x85e54b79, 0xc550b189));
  }

  lemma Line2()
    ensures RoundCells(Regs(0xea52428c, 0xb9edc12b, 0x002cdee7, 0x29657292, 0xac353a23, 0xb2ad29f4, 0x85e54b79, 0xc550b189),
                       2, Cell(0x00000000), Cell(0x00000000))
         == Regs(0x609f2850, 0xea52428c, 0xdb825773, 0x002cdee7, 0xd33ad5fb, 0xac353a23, 0x4fa59569, 0x85e54b79)
  {
    hide RoundCells;
    RoundBy(Regs(0xea52428c, 0xb9edc12b, 0x002cdee7, 0x29657292, 0xac353a23, 0xb2ad29f4, 0x85e54b79, 0xc550b189),
            2, 0x00000000, 0x00000000,
            Parts(2, 0xe7311465, 0x2428cea5, 0xd05e08c8, 0xc78e96db, 0xe3a6587e,
                  0x00000000, 0x53935d40, 0x9b7d58ae, 0x285ca112),
            Regs(0x609f2850, 0xea52428c, 0xdb825773, 0x002cdee7, 0xd33ad5fb, 0xac353a23, 0x4fa59569, 0x85e54b79));
  }

  lemma Line3()
    ensures RoundCells(Regs(0x609f2850, 0xea52428c, 0xdb825773, 0x002cdee7, 0xd33ad5fb, 0xac353a23, 0x4fa59569, 0x85e54b79),
                       3, Cell(0x00000000), Cell(0x00000000))
         == Regs(0x35037e59, 0x609f2850, 0xa48519d4, 0xdb825773, 0xb8204b5f, 0xd33ad5fb, 0xd11d61a9, 0x4fa59569)
  {
    hide RoundCells;
    RoundBy(Regs(0x609f2850, 0xea52428c, 0xdb825773, 0x002cdee7, 0xd33ad5fb, 0xac353a23, 0x4fa59569, 0x85e54b79),
            3, 0x00000000, 0x00000000,
            Parts(3, 0xce6228cb, 0xf2850609, 0xc5bfdc04, 0x110267ca, 0xe38761c3,
                  0x00000000, 0x514f3daf, 0x30aa7ab1, 0xc7922df4),
            Regs(0x35037e59, 0x609f2850, 0xa48519d4, 0xdb825773, 0xb8204b5f, 0xd33ad5fb, 0xd11d61a9, 0x4fa59569));
  }

  lemma Line4()
    ensures RoundCells(Regs(0x35037e59, 0x609f2850, 0xa48519d4, 0xdb825773, 0xb8204b5f, 0xd33ad5fb, 0xd11d61a9, 0x4fa59569),
                       4, Cell(0x00000000), Cell(0x00000000))
         == Regs(0x1f995766, 0x35037e59, 0x3e50a0c1, 0xa48519d4, 0x8ad212ea, 0xb8204b5f, 0xafde99d6, 0xd11d61a9)
  {
    hide RoundCells;
    RoundBy(Regs(0x35037e59, 0x609f2850, 0xa48519d4, 0xdb825773, 0xb8204b5f, 0xd33ad5fb, 0xd11d61a9, 0x4fa59569),
            4, 0x00000000, 0x00000000,
            Parts(4, 0x9cc45197, 0x37e59350, 0xf005deaf, 0x65182346, 0x52fdb016,
                  0x00000000, 0xf1194fdd, 0xba07ff0d, 0x6ec5b7bc),
            Regs(0x1f995766, 0x35037e59, 0x3e50a0c1, 0xa48519d4, 0x8ad212ea, 0xb8204b5f, 0xafde99d6, 0xd11d61a9));
  }

  lemma Line5()
    ensures RoundCells(Regs(0x1f995766, 0x35037e59, 0x3e50a0c1, 0xa48519d4, 0x8ad212ea, 0xb8204b5f, 0xafde99d6, 0xd11d61a9),
                       5, Cell(0x00000000), Cell(0x00000000))
         == Regs(0x374a0ca7, 0x1f995766, 0x06fcb26a, 0x3e50a0c1, 0xacf0f639, 0x8ad212ea, 0x5afdc102, 0xafde99d6)
  {
    hide RoundCells;
    RoundBy(Regs(0x1f995766, 0x35037e59, 0x3e50a0c1, 0xa48519d4, 0x8ad212ea, 0xb8204b5f, 0xafde99d6, 0xd11d61a9),
            5, 0x00000000, 0x00000000,
            Parts(5, 0x3988a32f, 0x957661f9, 0x204874e3, 0xe88c092c, 0x7dfa68d5,
                  0x00000000, 0x14ca89fe, 0x9d2cc063, 0x56d62b38),
            Regs(0x374a0ca7, 0x1f995766, 0x06fcb26a, 0x3e50a0c1, 0xacf0f639, 0x8ad212ea, 0x5afdc102, 0xafde99d6));
  }

  lemma Line6()
    ensures RoundCells(Regs(0x374a0ca7, 0x1f995766, 0x06fcb26a, 0x3e50a0c1, 0xacf0f639, 0x8ad212ea, 0x5afdc102, 0xafde99d6),
                       6, Cell(0x00000000), Cell(0x00000000))
         == Regs(0x33130100, 0x374a0ca7, 0x32aecc3f, 0x06fcb26a, 0x3391ec8a, 0xacf0f639, 0x97545690, 0x5afdc102)
  {
    hide RoundCells;
    RoundBy(Regs(0x374a0ca7, 0x1f995766, 0x06fcb26a, 0x3e50a0c1, 0xacf0f639, 0x8ad212ea, 0x5afdc102, 0xafde99d6),
            6, 0x00000000, 0x00000000,
            Parts(6, 0x7311465e, 0xa0ca7374, 0x4dbb69ad, 0x665805e0, 0xc6927694,
                  0x00000000, 0x2e2fe9ab, 0x7cdf25d1, 0x9315c587),
            Regs(0x33130100, 0x374a0ca7, 0x32aecc3f, 0x06fcb26a, 0x3391ec8a, 0xacf0f639, 0x97545690, 0x5afdc102));
  }

  lemma Line7()
    ensures RoundCells(Regs(0x33130100, 0x374a0ca7, 0x32aecc3f, 0x06fcb26a, 0x3391ec8a, 0xacf0f639, 0x97545690, 0x5afdc102),
                       7, Cell(0x00000000), Cell(0x00000000))
         == Regs(0x1022ac97, 0x33130100, 0x94194e6e, 0x32aecc3f, 0x367250a1, 0x3391ec8a, 0xb1cd6787, 0x97545690)
  {
    hide RoundCells;
    RoundBy(Regs(0x33130100, 0x374a0ca7, 0x32aecc3f, 0x06fcb26a, 0x3391ec8a, 0xacf0f639, 0x97545690, 0x5afdc102),
            7, 0x00000000, 0x00000000,
            Parts(7, 0xe6228cbc, 0x30100331, 0x63a1efbb, 0xe23e3ba4, 0xd22e3895,
                  0x00000000, 0x36f7c198, 0x08354c23, 0x457148c9),
            Regs(0x1022ac97, 0x33130100, 0x94194e6e, 0x32aecc3f, 0x367250a1, 0x3391ec8a, 0xb1cd6787, 0x97545690));
  }

  /** The registers after 8 rounds. */
  lemma Rounds8()
    ensures RoundsOf(8)
         == Regs(0x1022ac97, 0x33130100, 0x94194e6e, 0x32aecc3f, 0x367250a1, 0x3391ec8a, 0xb1cd6787, 0x97545690)
  {
    hide WordCell, RoundsOf, RoundCells;
    NoRounds();
    Words0();
    Line0();
    NextRound(0);
    Line1();
    NextRound(1);
    Line2();
    NextRound(2);
    Line3();
    NextRound(3);
    Line4();
    NextRound(4);
    Line5();
    NextRound(5);
    Line6();
    NextRound(6);
    Line7();
    NextRound(7);
  }

  lemma Line8()
    ensures RoundCells(Regs(0x1022ac97, 0x33130100, 0x94194e6e, 0x32aecc3f, 0x367250a1, 0x3391ec8a, 0xb1cd6787, 0x97545690),
                       8, Cell(0x00000000), Cell(0x00000000))
         == Regs(0xd47caf4c, 0x1022ac97, 0x26020066, 0x94194e6e, 0x6ad473a4, 0x367250a1, 0x64519c8f, 0xb1cd6787)
  {
    hide RoundCells;
    RoundBy(Regs(0x1022ac97, 0x33130100, 0x94194e6e, 0x32aecc3f, 0x367250a1, 0x3391ec8a, 0xb1cd6787, 0x97545690),
            8, 0x00000000, 0x00000000,
            Parts(8, 0xcc451979, 0x2ac97102, 0x613bc1a3, 0xc06d8e16, 0xeaa4ff14,
                  0x00000000, 0xb728e3f9, 0xb42edbac, 0x0bf0c052),
            Regs(0xd47caf4c, 0x1022ac97, 0x26020066, 0x94194e6e, 0x6ad473a4, 0x367250a1, 0x64519c8f, 0xb1cd6787));
  }

  lemma Line9()
    ensures RoundCells(Regs(0xd47caf4c, 0x1022ac97, 0x26020066, 0x94194e6e, 0x6ad473a4, 0x367250a1, 0x64519c8f, 0xb1cd6787),
                       9, Cell(0x00000000), Cell(0x00000000))
         == Regs(0x59c2744b, 0xd47caf4c, 0x45592e20, 0x26020066, 0xc6a3ceae, 0x6ad473a4, 0x8509b392, 0x64519c8f)
  {
    hide RoundCells;
    RoundBy(Regs(0xd47caf4c, 0x1022ac97, 0x26020066, 0x94194e6e, 0x6ad473a4, 0x367250a1, 0x64519c8f, 0xb1cd6787),
            9, 0x00000000, 0x00000000,
            Parts(9, 0x988a32f3, 0xcaf4cd47, 0x35c940eb, 0x29b9ef67, 0xe34d2220,
                  0x00000000, 0xe25c03bd, 0x38f7bf8a, 0x147f1678),
            Regs(0x59c2744b, 0xd47caf4c, 0x45592e20, 0x26020066, 0xc6a3ceae, 0x6ad473a4, 0x8509b392, 0x64519c8f));
  }

  lemma Line10()
    ensures RoundCells(Regs(0x59c2744b, 0xd47caf4c, 0x45592e20, 0x26020066, 0xc6a3ceae, 0x6ad473a4, 0x8509b392, 0x64519c8f),
                       10, Cell(0x00000000), Cell(0x00000000))
         == Regs(0x481ba2a0, 0x59c2744b, 0xf95e99a8, 0x45592e20, 0x02afb727, 0xc6a3ceae, 0x9d2356a3, 0x8509b392)
  {
    hide RoundCells;
    RoundBy(Regs(0x59c2744b, 0xd47caf4c, 0x45592e20, 0x26020066, 0xc6a3ceae, 0x6ad473a4, 0x8509b392, 0x64519c8f),
            10, 0x00000000, 0x00000000,
            Parts(10, 0x311465e7, 0x2744b59c, 0xede8844a, 0x7e75188f, 0x5931ad13,
                  0x00000000, 0xc8e7f527, 0x297e0e98, 0x0c44c3b6),
            Regs(0x481ba2a0, 0x59c2744b, 0xf95e99a8, 0x45592e20, 0x02afb727, 0xc6a3ceae, 0x9d2356a3, 0x8509b392));
  }

  lemma Line11()
    ensures RoundCells(Regs(0x481ba2a0, 0x59c2744b, 0xf95e99a8, 0x45592e20, 0x02afb727, 0xc6a3ceae, 0x9d2356a3, 0x8509b392),
                       11, Cell(0x00000000), Cell(0x00000018))
         == Regs(0x694a3d09, 0x481ba2a0, 0x84e896b3, 0xf95e99a8, 0x9dd1b58c, 0x02afb727, 0x7576351e, 0x9d2356a3)
  {
    hide RoundCells;
    RoundBy(Regs(0x481ba2a0, 0x59c2744b, 0xf95e99a8, 0x45592e20, 0x02afb727, 0xc6a3ceae, 0x9d2356a3, 0x8509b392),
            11, 0x00000000, 0x00000018,
            Parts(11, 0x6228cbce, 0xba2a0481, 0xbcd9bba8, 0x8143bb0f, 0x3b69bf8e,
                  0x00000018, 0xe8874f43, 0x592f2f2a, 0x5f7c9dcb),
            Regs(0x694a3d09, 0x481ba2a0, 0x84e896b3, 0xf95e99a8, 0x9dd1b58c, 0x02afb727, 0x7576351e, 0x9d2356a3));
  }

  lemma Line12()
    ensures RoundCells(Regs(0x694a3d09, 0x481ba2a0, 0x84e896b3, 0xf95e99a8, 0x9dd1b58c, 0x02afb727, 0x7576351e, 0x9d2356a3),
                       12, Cell(0x00000000), Cell(0x9092e200))
         == Regs(0x89cbcd58, 0x694a3d09, 0x37454090, 0x84e896b3, 0x6370db62, 0x9dd1b58c, 0xb938157d, 0x7576351e)
  {
    hide RoundCells;
    RoundBy(Regs(0x694a3d09, 0x481ba2a0, 0x84e896b3, 0xf95e99a8, 0x9dd1b58c, 0x02afb727, 0x7576351e, 0x9d2356a3),
            12, 0x00000000, 0x9092e200,
            Parts(12, 0xc451979c, 0xa3d09694, 0x41a24c20, 0xf9f1de02, 0x5a214896,
                  0x9092e200, 0xa5b9091a, 0xea0837b5, 0x811d6c5a),
            Regs(0x89cbcd58, 0x694a3d09, 0x37454090, 0x84e896b3, 0x6370db62, 0x9dd1b58c, 0xb938157d, 0x7576351e));
  }

  lemma Line13()
    ensures RoundCells(Regs(0x89cbcd58, 0x694a3d09, 0x37454090, 0x84e896b3, 0x6370db62, 0x9dd1b58c, 0xb938157d, 0x7576351e),
                       13, Cell(0x00000000), Cell(0x00000000))
         == Regs(0x24c95abc, 0x89cbcd58, 0x947a12d2, 0x37454090, 0x1a4a2554, 0x6370db62, 0xac64ee8d, 0xb938157d)
  {
    hide RoundCells;
    RoundBy(Regs(0x89cbcd58, 0x694a3d09, 0x37454090, 0x84e896b3, 0x6370db62, 0x9dd1b58c, 0xb938157d, 0x7576351e),
            13, 0x00000000, 0x00000000,
            Parts(13, 0x88a32f39, 0xbcd5889c, 0x204663fe, 0x74c99bd4, 0xc81c1348,
                  0x00000000, 0xd7c4b0c1, 0x47997b93, 0x31d94c85),
            Regs(0x24c95abc, 0x89cbcd58, 0x947a12d2, 0x37454090, 0x1a4a2554, 0x6370db62, 0xac64ee8d, 0xb938157d));
  }

  lemma Line14()
    ensures RoundCells(Regs(0x24c95abc, 0x89cbcd58, 0x947a12d2, 0x37454090, 0x1a4a2554, 0x6370db62, 0xac64ee8d, 0xb938157d),
                       14, Cell(0x00000000), Cell(0x000c0606))
         == Regs(0x7c529778, 0x24c95abc, 0x979ab113, 0x947a12d2, 0x3ee95933, 0x1a4a2554, 0xdb131b86, 0xac64ee8d)
  {
    hide RoundCells;
    RoundBy(Regs(0x24c95abc, 0x89cbcd58, 0x947a12d2, 0x37454090, 0x1a4a2554, 0x6370db62, 0xac64ee8d, 0xb938157d),
            14, 0x00000000, 0x000c0606,
            Parts(14, 0x11465e73, 0x95abc24c, 0xaff5e7a0, 0x9e2309e0, 0x0b88cbac,
                  0x000c0606, 0x39788536, 0xd55e10bb, 0x2cb93018),
            Regs(0x7c529778, 0x24c95abc, 0x979ab113, 0x947a12d2, 0x3ee95933, 0x1a4a2554, 0xdb131b86, 0xac64ee8d));
  }

  lemma Line15()
    ensures RoundCells(Regs(0x7c529778, 0x24c95abc, 0x979ab113, 0x947a12d2, 0x3ee95933, 0x1a4a2554, 0xdb131b86, 0xac64ee8d),
                       15, Cell(0x00000018), Cell(0x719c70ed))
         == Regs(0x34d1691e, 0x7c529778, 0x92b57849, 0x979ab113, 0x61f99646, 0x3ee95933, 0x2aa0d251, 0xdb131b86)
  {
    hide RoundCells;
    RoundBy(Regs(0x7c529778, 0x24c95abc, 0x979ab113, 0x947a12d2, 0x3ee95933, 0x1a4a2554, 0xdb131b86, 0xac64ee8d),
            15, 0x00000018, 0x719c70ed,
            Parts(15, 0x228cbce6, 0x297787c5, 0x6860e0f8, 0x76ceef45, 0x5fb96880,
                  0x719c70f5, 0xcf017cd7, 0xffb067e1, 0x22e445cb),
            Regs(0x34d1691e, 0x7c529778, 0x92b57849, 0x979ab113, 0x61f99646, 0x3ee95933, 0x2aa0d251, 0xdb131b86));
  }

  /** The registers after 16 rounds. */
  lemma Rounds16()
    ensures RoundsOf(16)
         == Regs(0x34d1691e, 0x7c529778, 0x92b57849, 0x979ab113, 0x61f99646, 0x3ee95933, 0x2aa0d251, 0xdb131b86)
  {
    hide WordCell, RoundsOf, RoundCells;
    Rounds8();
    Words0();
    Words16();
    RowWords(16, Row16());
    Line8();
    NextRound(8);
    Line9();
    NextRound(9);
    Line10();
    NextRound(10);
    Line11();
    NextRound(11);
    Line12();
    NextRound(12);
    Line13();
    NextRound(13);
    Line14();
    NextRound(14);
    Line15();
    NextRound(15);
  }

  lemma Line16()
    ensures RoundCells(Regs(0x34d1691e, 0x7c529778, 0x92b57849, 0x979ab113, 0x61f99646, 0x3ee95933, 0x2aa0d251, 0xdb131b86),
                       16, Cell(0x9092e200), Cell(0x00000000))
         == Regs(0x796afab1, 0x34d1691e, 0xa52ef0f8, 0x92b57849, 0x067550f5, 0x61f99646, 0xc999f74a, 0x2aa0d251)
  {
    hide RoundCells;
    RoundBy(Regs(0x34d1691e, 0x7c529778, 0x92b57849, 0x979ab113, 0x61f99646, 0x3ee95933, 0x2aa0d251, 0xdb131b86),
            16, 0x9092e200, 0x00000000,
            Parts(16, 0x9d8a7a87, 0x1691e34d, 0x788b7993, 0x0afa0d0b, 0x1c6bee46,
                  0x9092e200, 0x34d17958, 0x2ae95013, 0xa1895aa4),
            Regs(0x796afab1, 0x34d1691e, 0xa52ef0f8, 0x92b57849, 0x067550f5, 0x61f99646, 0xc999f74a, 0x2aa0d251));
  }

  lemma Line17()
    ensures RoundCells(Regs(0x796afab1, 0x34d1691e, 0xa52ef0f8, 0x92b57849, 0x067550f5, 0x61f99646, 0xc999f74a, 0x2aa0d251),
                       17, Cell(0x00000000), Cell(0x8001801f))
         == Regs(0x7d27cc0e, 0x796afab1, 0xa2d23c69, 0xa52ef0f8, 0xb3c8669b, 0x067550f5, 0xb2330fcc, 0xc999f74a)
  {
    hide RoundCells;
    RoundBy(Regs(0x796afab1, 0x34d1691e, 0xa52ef0f8, 0x92b57849, 0x067550f5, 0x61f99646, 0xc999f74a, 0x2aa0d251),
            17, 0x00000000, 0x8001801f,
            Parts(17, 0x3b14f50f, 0xafab1796, 0xb620688b, 0x9aaecd78, 0x3505daee,
                  0x8001801f, 0x356af8b8, 0xc9f9b74e, 0x8f495717),
            Regs(0x7d27cc0e, 0x796afab1, 0xa2d23c69, 0xa52ef0f8, 0xb3c8669b, 0x067550f5, 0xb2330fcc, 0xc999f74a));
  }

  lemma Line18()
    ensures RoundCells(Regs(0x7d27cc0e, 0x796afab1, 0xa2d23c69, 0xa52ef0f8, 0xb3c8669b, 0x067550f5, 0xb2330fcc, 0xc999f74a),
                       18, Cell(0x000c0606), Cell(0x939f7da9))
         == Regs(0xd7820ad1, 0x7d27cc0e, 0xd5f562f2, 0xa2d23c69, 0x575c37d8, 0xb3c8669b, 0x87a833aa, 0xb2330fcc)
  {
    hide RoundCells;
    RoundBy(Regs(0x7d27cc0e, 0x796afab1, 0xa2d23c69, 0xa52ef0f8, 0xb3c8669b, 0x067550f5, 0xb2330fcc, 0xc999f74a),
            18, 0x000c0606, 0x939f7da9,
            Parts(18, 0x7629ea1e, 0x7cc0e7d2, 0x30894e6d, 0x599c45d3, 0x255ca201,
                  0x93937baf, 0x7962fc29, 0x027349d5, 0x25b58cf8),
            Regs(0xd7820ad1, 0x7d27cc0e, 0xd5f562f2, 0xa2d23c69, 0x575c37d8, 0xb3c8669b, 0x87a833aa, 0xb2330fcc));
  }

  lemma Line19()
    ensures RoundCells(Regs(0xd7820ad1, 0x7d27cc0e, 0xd5f562f2, 0xa2d23c69, 0x575c37d8, 0xb3c8669b, 0x87a833aa, 0xb2330fcc),
                       19, Cell(0x719c70ed), Cell(0x00000000))
         == Regs(0xf84fd372, 0xd7820ad1, 0x4f981cfa, 0xd5f562f2, 0xa5dceaf1, 0x575c37d8, 0x34dd9e43, 0x87a833aa)
  {
    hide RoundCells;
    RoundBy(Regs(0xd7820ad1, 0x7d27cc0e, 0xd5f562f2, 0xa2d23c69, 0x575c37d8, 0xb3c8669b, 0x87a833aa, 0xb2330fcc),
            19, 0x719c70ed, 0x00000000,
            Parts(19, 0xec53d43c, 0x20ad1d78, 0x78095550, 0x2e94c632, 0x0e39db4a,
                  0x719c70ed, 0xd5a74ad2, 0x93e826ba, 0xe64c6da5),
            Regs(0xf84fd372, 0xd7820ad1, 0x4f981cfa, 0xd5f562f2, 0xa5dceaf1, 0x575c37d8, 0x34dd9e43, 0x87a833aa));
  }

  lemma Line20()
    ensures RoundCells(Regs(0xf84fd372, 0xd7820ad1, 0x4f981cfa, 0xd5f562f2, 0xa5dceaf1, 0x575c37d8, 0x34dd9e43, 0x87a833aa),
                       20, Cell(0x00000000), Cell(0x2c6fa1f9))
         == Regs(0x02c57896, 0xf84fd372, 0x0415a3af, 0x4f981cfa, 0x74576681, 0xa5dceaf1, 0xbec2bae1, 0x34dd9e43)
  {
    hide RoundCells;
    RoundBy(Regs(0xf84fd372, 0xd7820ad1, 0x4f981cfa, 0xd5f562f2, 0xa5dceaf1, 0x575c37d8, 0x34dd9e43, 0x87a833aa),
            20, 0x00000000, 0x2c6fa1f9,
            Parts(20, 0xd8a7a879, 0xfd372f84, 0xa3141a75, 0xdde1773d, 0x20d658b9,
                  0x2c6fa1f9, 0xdf8a1af2, 0x155d36d2, 0x7ae6e1b9),
            Regs(0x02c57896, 0xf84fd372, 0x0415a3af, 0x4f981cfa, 0x74576681, 0xa5dceaf1, 0xbec2bae1, 0x34dd9e43));
  }

  lemma Line21()
    ensures RoundCells(Regs(0x02c57896, 0xf84fd372, 0x0415a3af, 0x4f981cfa, 0x74576681, 0xa5dceaf1, 0xbec2bae1, 0x34dd9e43),
                       21, Cell(0x8001801f), Cell(0xadaaef14))
         == Regs(0x4d0c2fcd, 0x02c57896, 0x9fa6e5f0, 0x0415a3af, 0x576f1d09, 0x74576681, 0x578d2ee7, 0xbec2bae1)
  {
    hide RoundCells;
    RoundBy(Regs(0x02c57896, 0xf84fd372, 0x0415a3af, 0x4f981cfa, 0x74576681, 0xa5dceaf1, 0xbec2bae1, 0x34dd9e43),
            21, 0x8001801f, 0xadaaef14,
            Parts(21, 0xb14f50f3, 0x5789602c, 0xcbe0c6ad, 0x980bd03e, 0xcf82b012,
                  0x2dab6f0b, 0x0045f3b6, 0xaed4fae1, 0xfbbfe981),
            Regs(0x4d0c2fcd, 0x02c57896, 0x9fa6e5f0, 0x0415a3af, 0x576f1d09, 0x74576681, 0x578d2ee7, 0xbec2bae1));
  }

  lemma Line22()
    ensures RoundCells(Regs(0x4d0c2fcd, 0x02c57896, 0x9fa6e5f0, 0x0415a3af, 0x576f1d09, 0x74576681, 0x578d2ee7, 0xbec2bae1),
                       22, Cell(0x939f7da9), Cell(0x00000000))
         == Regs(0xeeeec41a, 0x4d0c2fcd, 0x8af12c05, 0x9fa6e5f0, 0xb5523911, 0x576f1d09, 0x340ba2bb, 0x578d2ee7)
  {
    hide RoundCells;
    RoundBy(Regs(0x4d0c2fcd, 0x02c57896, 0x9fa6e5f0, 0x0415a3af, 0x576f1d09, 0x74576681, 0x578d2ee7, 0xbec2bae1),
            22, 0x939f7da9, 0x00000000,
            Parts(22, 0x629ea1e7, 0xc2fcd4d0, 0x1a6bf1d9, 0x8549e03e, 0x47b534ee,
                  0x939f7da9, 0x0f846dd4, 0x54c726e7, 0x2c733faf),
            Regs(0xeeeec41a, 0x4d0c2fcd, 0x8af12c05, 0x9fa6e5f0, 0xb5523911, 0x576f1d09, 0x340ba2bb, 0x578d2ee7));
  }

  lemma Line23()
    ensures RoundCells(Regs(0xeeeec41a, 0x4d0c2fcd, 0x8af12c05, 0x9fa6e5f0, 0xb5523911, 0x576f1d09, 0x340ba2bb, 0x578d2ee7),
                       23, Cell(0x00000000), Cell(0x0001801e))
         == Regs(0xf368da78, 0xeeeec41a, 0x185f9a9a, 0x8af12c05, 0x6a879032, 0xb5523911, 0xe84abb78, 0x340ba2bb)
  {
    hide RoundCells;
    RoundBy(Regs(0xeeeec41a, 0x4d0c2fcd, 0x8af12c05, 0x9fa6e5f0, 0xb5523911, 0x576f1d09, 0x340ba2bb, 0x578d2ee7),
            23, 0x00000000, 0x0001801e,
            Parts(23, 0xc53d43ce, 0xec41aeee, 0xa193e7ff, 0x6895e6b3, 0x84d4485d,
                  0x0001801e, 0xceec2c0d, 0x154b9bab, 0xd56eb145),
            Regs(0xf368da78, 0xeeeec41a, 0x185f9a9a, 0x8af12c05, 0x6a879032, 0xb5523911, 0xe84abb78, 0x340ba2bb));
  }

  /** The registers after 24 rounds. */
  lemma Rounds24()
    ensures RoundsOf(24)
         == Regs(0xf368da78, 0xeeeec41a, 0x185f9a9a, 0x8af12c05, 0x6a879032, 0xb5523911, 0xe84abb78, 0x340ba2bb)
  {
    hide WordCell, RoundsOf, RoundCells;
    Rounds16();
    Words16();
    RowWords(16, Row16());
    Words24();
    RowWords(24, Row24());
    Line16();
    NextRound(16);
    Line17();
    NextRound(17);
    Line18();
    NextRound(18);
    Line19();
    NextRound(19);
    Line20();
    NextRound(20);
    Line21();
    NextRound(21);
    Line22();
    NextRound(22);
    Line23();
    NextRound(23);
  }

  lemma Line24()
    ensures RoundCells(Regs(0xf368da78, 0xeeeec41a, 0x185f9a9a, 0x8af12c05, 0x6a879032, 0xb5523911, 0xe84abb78, 0x340ba2bb),
                       24, Cell(0x2c6fa1f9), Cell(0x9a965f89))
         == Regs(0x15ce1286, 0xf368da78, 0xdd8835dd, 0x185f9a9a, 0x62063354, 0x6a879032, 0xc88daa91, 0xe84abb78)
  {
    hide RoundCells;
    RoundBy(Regs(0xf368da78, 0xeeeec41a, 0x185f9a9a, 0x8af12c05, 0x6a879032, 0xb5523911, 0xe84abb78, 0x340ba2bb),
            24, 0x2c6fa1f9, 0x9a965f89,
            Parts(24, 0x8a7a879d, 0x8da78f36, 0xf82f1f68, 0x54d382c1, 0xd9740df7,
                  0xb6f9fe70, 0xfa6eda1a, 0xa04a3b58, 0x559902cd),
            Regs(0x15ce1286, 0xf368da78, 0xdd8835dd, 0x185f9a9a, 0x62063354, 0x6a879032, 0xc88daa91, 0xe84abb78));
  }

  lemma Line25()
    ensures RoundCells(Regs(0x15ce1286, 0xf368da78, 0xdd8835dd, 0x185f9a9a, 0x62063354, 0x6a879032, 0xc88daa91, 0xe84abb78),
                       25, Cell(0xadaaef14), Cell(0x49710048))
         == Regs(0xc3fd31c2, 0x15ce1286, 0xd1b4f1e6, 0xdd8835dd, 0x4db58f43, 0x62063354, 0x8193543c, 0xc88daa91)
  {
    hide RoundCells;
    RoundBy(Regs(0x15ce1286, 0xf368da78, 0xdd8835dd, 0x185f9a9a, 0x62063354, 0x6a879032, 0xc88daa91, 0xe84abb78),
            25, 0xadaaef14, 0x49710048,
            Parts(25, 0x14f50f3b, 0xe128615c, 0x432e94b0, 0x11d1f5ac, 0xf0f994f0,
                  0xe4dbef5c, 0xd5c812dc, 0xea8f9891, 0x925738c9),
            Regs(0xc3fd31c2, 0x15ce1286, 0xd1b4f1e6, 0xdd8835dd, 0x4db58f43, 0x62063354, 0x8193543c, 0xc88daa91));
  }

  lemma Line26()
    ensures RoundCells(Regs(0xc3fd31c2, 0x15ce1286, 0xd1b4f1e6, 0xdd8835dd, 0x4db58f43, 0x62063354, 0x8193543c, 0xc88daa91),
                       26, Cell(0x00000000), Cell(0x23ce86a1))
         == Regs(0x6243be5e, 0xc3fd31c2, 0x9c250c2b, 0xd1b4f1e6, 0x131152fe, 0x4db58f43, 0x9aa31031, 0x8193543c)
  {
    hide RoundCells;
    RoundBy(Regs(0xc3fd31c2, 0x15ce1286, 0xd1b4f1e6, 0xdd8835dd, 0x4db58f43, 0x62063354, 0x8193543c, 0xc88daa91),
            26, 0x00000000, 0x23ce86a1,
            Parts(26, 0x29ea1e76, 0xd31c2c3f, 0x20d1bb82, 0x5decfc25, 0x8ef0d01a,
                  0x23ce86a1, 0xd1fc31c6, 0xc006537c, 0xe680fa32),
            Regs(0x6243be5e, 0xc3fd31c2, 0x9c250c2b, 0xd1b4f1e6, 0x131152fe, 0x4db58f43, 0x9aa31031, 0x8193543c));
  }

  lemma Line27()
    ensures RoundCells(Regs(0x6243be5e, 0xc3fd31c2, 0x9c250c2b, 0xd1b4f1e6, 0x131152fe, 0x4db58f43, 0x9aa31031, 0x8193543c),
                       27, Cell(0x0001801e), Cell(0xb2d12f1b))
         == Regs(0xa549beaa, 0x6243be5e, 0xfa638587, 0x9c250c2b, 0xcf65e309, 0x131152fe, 0x7a1a6dac, 0x9aa31031)
  {
    hide RoundCells;
    RoundBy(Regs(0x6243be5e, 0xc3fd31c2, 0x9c250c2b, 0xd1b4f1e6, 0x131152fe, 0x4db58f43, 0x9aa31031, 0x8193543c),
            27, 0x0001801e, 0xb2d12f1b,
            Parts(27, 0x53d43cec, 0x3be5e624, 0x4ef73922, 0x65bb0751, 0x5e5ee175,
                  0xb2d0af05, 0xc2653c4a, 0x89b30243, 0x7102ddee),
            Regs(0xa549beaa, 0x6243be5e, 0xfa638587, 0x9c250c2b, 0xcf65e309, 0x131152fe, 0x7a1a6dac, 0x9aa31031));
  }

  lemma Line28()
    ensures RoundCells(Regs(0xa549beaa, 0x6243be5e, 0xfa638587, 0x9c250c2b, 0xcf65e309, 0x131152fe, 0x7a1a6dac, 0x9aa31031),
                       28, Cell(0x9a965f89), Cell(0xe1dae338))
         == Regs(0xe11eb847, 0xa549beaa, 0x877cbcc4, 0xfa638587, 0xe5b64e96, 0xcf65e309, 0x97f0988a, 0x7a1a6dac)
  {
    hide RoundCells;
    RoundBy(Regs(0xa549beaa, 0x6243be5e, 0xfa638587, 0x9c250c2b, 0xcf65e309, 0x131152fe, 0x7a1a6dac, 0x9aa31031),
            28, 0x9a965f89, 0xe1dae338,
            Parts(28, 0xa7a879d8, 0x9beaaa54, 0x6b508d5d, 0x7c839a89, 0xe76930dd,
                  0x7b4cbcb1, 0xe243be8e, 0x331b4eac, 0xe4d858ef),
            Regs(0xe11eb847, 0xa549beaa, 0x877cbcc4, 0xfa638587, 0xe5b64e96, 0xcf65e309, 0x97f0988a, 0x7a1a6dac));
  }

  lemma Line29()
    ensures RoundCells(Regs(0xe11eb847, 0xa549beaa, 0x877cbcc4, 0xfa638587, 0xe5b64e96, 0xcf65e309, 0x97f0988a, 0x7a1a6dac),
                       29, Cell(0x49710048), Cell(0xf8061807))
         == Regs(0xff9bac9d, 0xe11eb847, 0x937d554a, 0x877cbcc4, 0x9811b46d, 0xe5b64e96, 0x184e7b2f, 0x97f0988a)
  {
    hide RoundCells;
    RoundBy(Regs(0xe11eb847, 0xa549beaa, 0x877cbcc4, 0xfa638587, 0xe5b64e96, 0xcf65e309, 0x97f0988a, 0x7a1a6dac),
            29, 0x49710048, 0xf8061807,
            Parts(29, 0x4f50f3b1, 0xeb847e11, 0xd13acca7, 0x45e02c10, 0xae645201,
                  0xb177184f, 0xa55cbcc6, 0xd764d208, 0xe0d06c0c),
            Regs(0xff9bac9d, 0xe11eb847, 0x937d554a, 0x877cbcc4, 0x9811b46d, 0xe5b64e96, 0x184e7b2f, 0x97f0988a));
  }

  lemma Line30()
    ensures RoundCells(Regs(0xff9bac9d, 0xe11eb847, 0x937d554a, 0x877cbcc4, 0x9811b46d, 0xe5b64e96, 0x184e7b2f, 0x97f0988a),
                       30, Cell(0x23ce86a1), Cell(0x055d68be))
         == Regs(0xa5a4a2b3, 0xff9bac9d, 0x3d708fc2, 0x937d554a, 0xe92df4ea, 0x9811b46d, 0x74b72db2, 0x184e7b2f)
  {
    hide RoundCells;
    RoundBy(Regs(0xff9bac9d, 0xe11eb847, 0x937d554a, 0x877cbcc4, 0x9811b46d, 0xe5b64e96, 0x184e7b2f, 0x97f0988a),
            30, 0x23ce86a1, 0x055d68be,
            Parts(30, 0x9ea1e762, 0xbac9dff9, 0x52db9466, 0xbebde478, 0x04743b81,
                  0x2693ee1f, 0xf31fbc4f, 0x805e4f06, 0xfadb52a9),
            Regs(0xa5a4a2b3, 0xff9bac9d, 0x3d708fc2, 0x937d554a, 0xe92df4ea, 0x9811b46d, 0x74b72db2, 0x184e7b2f));
  }

  lemma Line31()
    ensures RoundCells(Regs(0xa5a4a2b3, 0xff9bac9d, 0x3d708fc2, 0x937d554a, 0xe92df4ea, 0x9811b46d, 0x74b72db2, 0x184e7b2f),
                       31, Cell(0xb2d12f1b), Cell(0x86cfd481))
         == Regs(0x89a13e59, 0xa5a4a2b3, 0x37593bff, 0x3d708fc2, 0x0a1ff572, 0xe92df4ea, 0xa36cc08d, 0x74b72db2)
  {
    hide RoundCells;
    RoundBy(Regs(0xa5a4a2b3, 0xff9bac9d, 0x3d708fc2, 0x937d554a, 0xe92df4ea, 0x9811b46d, 0x74b72db2, 0x184e7b2f),
            31, 0xb2d12f1b, 0x86cfd481,
            Parts(31, 0x3d43cec5, 0x4a2b3a5a, 0x33592f44, 0x4e7f04b8, 0x04543ee2,
                  0x341efb9a, 0xbdb0ae93, 0x9c93bd78, 0xb6326c7a),
            Regs(0x89a13e59, 0xa5a4a2b3, 0x37593bff, 0x3d708fc2, 0x0a1ff572, 0xe92df4ea, 0xa36cc08d, 0x74b72db2));
  }

  /** The registers after 32 rounds. */
  lemma Rounds32()
    ensures RoundsOf(32)
         == Regs(0x89a13e59, 0xa5a4a2b3, 0x37593bff, 0x3d708fc2, 0x0a1ff572, 0xe92df4ea, 0xa36cc08d, 0x74b72db2)
  {
    hide WordCell, RoundsOf, RoundCells;
    Rounds24();
    Words24();
    RowWords(24, Row24());
    Words32();
    RowWords(32, Row32());
    Line24();
    NextRound(24);
    Line25();
    NextRound(25);
    Line26();
    NextRound(26);
    Line27();
    NextRound(27);
    Line28();
    NextRound(28);
    Line29();
    NextRound(29);
    Line30();
    NextRound(30);
    Line31();
    NextRound(31);
  }

  lemma Line32()
    ensures RoundCells(Regs(0x89a13e59, 0xa5a4a2b3, 0x37593bff, 0x3d708fc2, 0x0a1ff572, 0xe92df4ea, 0xa36cc08d, 0x74b72db2),
                       32, Cell(0xe1dae338), Cell(0x1f447d83))
         == Regs(0x3720bd4e, 0x89a13e59, 0x4945674b, 0x37593bff, 0xcf7d1683, 0x0a1ff572, 0xa757496f, 0xa36cc08d)
  {
    hide RoundCells;
    RoundBy(Regs(0x89a13e59, 0xa5a4a2b3, 0x37593bff, 0x3d708fc2, 0x0a1ff572, 0xe92df4ea, 0xa36cc08d, 0x74b72db2),
            32, 0xe1dae338, 0x1f447d83,
            Parts(0, 0x7a879d8a, 0x13e5989a, 0x1e058e0c, 0x4695cb4c, 0x557053d6,
                  0xfe9e9ebb, 0xa5a13afb, 0xa96df4ef, 0x4695d125),
            Regs(0x3720bd4e, 0x89a13e59, 0x4945674b, 0x37593bff, 0xcf7d1683, 0x0a1ff572, 0xa757496f, 0xa36cc08d));
  }

  lemma Line33()
    ensures RoundCells(Regs(0x3720bd4e, 0x89a13e59, 0x4945674b, 0x37593bff, 0xcf7d1683, 0x0a1ff572, 0xa757496f, 0xa36cc08d),
                       33, Cell(0xf8061807), Cell(0xd9023dbf))
         == Regs(0x9ccd089c, 0x3720bd4e, 0x427cb313, 0x4945674b, 0xda8c835f, 0xcf7d1683, 0xab9050ff, 0xa757496f)
  {
    hide RoundCells;
    RoundBy(Regs(0x3720bd4e, 0x89a13e59, 0x4945674b, 0x37593bff, 0xcf7d1683, 0x0a1ff572, 0xa757496f, 0xa36cc08d),
            33, 0xf8061807, 0xd9023dbf,
            Parts(1, 0xf50f3b14, 0x0bd4e372, 0xdb51f9f5, 0x309a84e8, 0x3b4e679a,
                  0x210425b8, 0x09213f4b, 0x2a1f5d6e, 0xf62cbaea),
            Regs(0x9ccd089c, 0x3720bd4e, 0x427cb313, 0x4945674b, 0xda8c835f, 0xcf7d1683, 0xab9050ff, 0xa757496f));
  }

  lemma Line34()
    ensures RoundCells(Regs(0x9ccd089c, 0x3720bd4e, 0x427cb313, 0x4945674b, 0xda8c835f, 0xcf7d1683, 0xab9050ff, 0xa757496f),
                       34, Cell(0x055d68be), Cell(0x185898e0))
         == Regs(0xc7a0744d, 0x9ccd089c, 0x417a9c6e, 0x427cb313, 0x0958ff1b, 0xda8c835f, 0xb41e7be8, 0xab9050ff)
  {
    hide RoundCells;
    RoundBy(Regs(0x9ccd089c, 0x3720bd4e, 0x427cb313, 0x4945674b, 0xda8c835f, 0xcf7d1683, 0xab9050ff, 0xa757496f),
            34, 0x055d68be, 0x185898e0,
            Parts(2, 0xea1e7629, 0xd089c9cc, 0xab164d2b, 0x9a61aa4a, 0x4ae86386,
                  0x1d05f05e, 0x166cb91e, 0xeb1c52a3, 0x3232af1a),
            Regs(0xc7a0744d, 0x9ccd089c, 0x417a9c6e, 0x427cb313, 0x0958ff1b, 0xda8c835f, 0xb41e7be8, 0xab9050ff));
  }

  lemma Line35()
    ensures RoundCells(Regs(0xc7a0744d, 0x9ccd089c, 0x417a9c6e, 0x427cb313, 0x0958ff1b, 0xda8c835f, 0xb41e7be8, 0xab9050ff),
                       35, Cell(0x86cfd481), Cell(0xe0061807))
         == Regs(0xd955c3ed, 0xc7a0744d, 0x9a113939, 0x417a9c6e, 0xc533f0ff, 0x0958ff1b, 0x1afed464, 0xb41e7be8)
  {
    hide RoundCells;
    RoundBy(Regs(0xc7a0744d, 0x9ccd089c, 0x417a9c6e, 0x427cb313, 0x0958ff1b, 0xda8c835f, 0xb41e7be8, 0xab9050ff),
            35, 0x86cfd481, 0xe0061807,
            Parts(3, 0xd43cec53, 0x0744dc7a, 0x109ddb95, 0x6d63f472, 0x6a272808,
                  0x66c9cc86, 0xc5e81c4c, 0xbc0e83fb, 0x5bd29ded),
            Regs(0xd955c3ed, 0xc7a0744d, 0x9a113939, 0x417a9c6e, 0xc533f0ff, 0x0958ff1b, 0x1afed464, 0xb41e7be8));
  }

  lemma Line36()
    ensures RoundCells(Regs(0xd955c3ed, 0xc7a0744d, 0x9a113939, 0x417a9c6e, 0xc533f0ff, 0x0958ff1b, 0x1afed464, 0xb41e7be8),
                       36, Cell(0x1f447d83), Cell(0x050df55c))
         == Regs(0xe142d72b, 0xd955c3ed, 0x40e89b8f, 0x9a113939, 0xd4509586, 0xc533f0ff, 0xf8d84ac7, 0x1afed464)
  {
    hide RoundCells;
    RoundBy(Regs(0xd955c3ed, 0xc7a0744d, 0x9a113939, 0x417a9c6e, 0xc533f0ff, 0x0958ff1b, 0x1afed464, 0xb41e7be8),
            36, 0x1f447d83, 0x050df55c,
            Parts(4, 0xa879d8a7, 0x5c3edd95, 0x2172ce94, 0xf6539de4, 0xaa6d4071,
                  0x1a4988df, 0xdb11716d, 0x1bdcf41b, 0xe5938b6a),
            Regs(0xe142d72b, 0xd955c3ed, 0x40e89b8f, 0x9a113939, 0xd4509586, 0xc533f0ff, 0xf8d84ac7, 0x1afed464));
  }

  lemma Line37()
    ensures RoundCells(Regs(0xe142d72b, 0xd955c3ed, 0x40e89b8f, 0x9a113939, 0xd4509586, 0xc533f0ff, 0xf8d84ac7, 0x1afed464),
                       37, Cell(0xd9023dbf), Cell(0xcde0104c))
         == Regs(0xe7250598, 0xe142d72b, 0xab87dbb2, 0x40e89b8f, 0xc7f93fd3, 0xd4509586, 0x87fe299f, 0xf8d84ac7)
  {
    hide RoundCells;
    RoundBy(Regs(0xe142d72b, 0xd955c3ed, 0x40e89b8f, 0x9a113939, 0xd4509586, 0xc533f0ff, 0xf8d84ac7, 0x1afed464),
            37, 0xd9023dbf, 0xcde0104c,
            Parts(5, 0x50f3b14f, 0x2d72be14, 0x01c3539a, 0x5b8274a9, 0x76f0cabd,
                  0x14e22df3, 0xc140d3af, 0xec98dac7, 0x3c1c6193),
            Regs(0xe7250598, 0xe142d72b, 0xab87dbb2, 0x40e89b8f, 0xc7f93fd3, 0xd4509586, 0x87fe299f, 0xf8d84ac7));
  }

  lemma Line38()
    ensures RoundCells(Regs(0xe7250598, 0xe142d72b, 0xab87dbb2, 0x40e89b8f, 0xc7f93fd3, 0xd4509586, 0x87fe299f, 0xf8d84ac7),
                       38, Cell(0x185898e0), Cell(0xa5b9c955))
         == Regs(0x2f13c4ad, 0xe7250598, 0x85ae57c2, 0xab87dbb2, 0x1a6cabc9, 0xc7f93fd3, 0xac36a284, 0x87fe299f)
  {
    hide RoundCells;
    RoundBy(Regs(0xe7250598, 0xe142d72b, 0xab87dbb2, 0x40e89b8f, 0xc7f93fd3, 0xd4509586, 0x87fe299f, 0xf8d84ac7),
            38, 0x185898e0, 0xa5b9c955,
            Parts(6, 0xa1e7629e, 0x50598e72, 0x1852ce45, 0x1d1871dd, 0x4d41ffaf,
                  0xbde151b5, 0xe307d7ba, 0xc456158e, 0xf29f6b12),
            Regs(0x2f13c4ad, 0xe7250598, 0x85ae57c2, 0xab87dbb2, 0x1a6cabc9, 0xc7f93fd3, 0xac36a284, 0x87fe299f));
  }

  lemma Line39()
    ensures RoundCells(Regs(0x2f13c4ad, 0xe7250598, 0x85ae57c2, 0xab87dbb2, 0x1a6cabc9, 0xc7f93fd3, 0xac36a284, 0x87fe299f),
                       39, Cell(0xe0061807), Cell(0xa7df0184))
         == Regs(0x19f363f9, 0x2f13c4ad, 0x4a0b31ce, 0x85ae57c2, 0xc302badb, 0x1a6cabc9, 0xfe9e3fc9, 0xac36a284)
  {
    hide RoundCells;
    RoundBy(Regs(0x2f13c4ad, 0xe7250598, 0x85ae57c2, 0xab87dbb2, 0x1a6cabc9, 0xc7f93fd3, 0xac36a284, 0x87fe299f),
            39, 0xe0061807, 0xa7df0184,
            Parts(7, 0x43cec53d, 0x3c4ad2f1, 0x56b77eba, 0x4321fbcd, 0x7f6b293c,
                  0x47d91983, 0xa7274588, 0xa67a2bc5, 0x51a06938),
            Regs(0x19f363f9, 0x2f13c4ad, 0x4a0b31ce, 0x85ae57c2, 0xc302badb, 0x1a6cabc9, 0xfe9e3fc9, 0xac36a284));
  }

  /** The registers after 40 rounds. */
  lemma Rounds40()
    ensures RoundsOf(40)
         == Regs(0x19f363f9, 0x2f13c4ad, 0x4a0b31ce, 0x85ae57c2, 0xc302badb, 0x1a6cabc9, 0xfe9e3fc9, 0xac36a284)
  {
    hide WordCell, RoundsOf, RoundCells;
    Rounds32();
    Words32();
    RowWords(32, Row32());
    Words40();
    RowWords(40, Row40());
    Line32();
    NextRound(32);
    Line33();
    NextRound(33);
    Line34();
    NextRound(34);
    Line35();
    NextRound(35);
    Line36();
    NextRound(36);
    Line37();
    NextRound(37);
    Line38();
    NextRound(38);
    Line39();
    NextRound(39);
  }

  lemma Line40()
    ensures RoundCells(Regs(0x19f363f9, 0x2f13c4ad, 0x4a0b31ce, 0x85ae57c2, 0xc302badb, 0x1a6cabc9, 0xfe9e3fc9, 0xac36a284),
                       40, Cell(0x050df55c), Cell(0x6e46cd08))
         == Regs(0x55e1dde2, 0x19f363f9, 0x27895a5e, 0x4a0b31ce, 0x459daccf, 0xc302badb, 0x5e48d365, 0xfe9e3fc9)
  {
    hide RoundCells;
    RoundBy(Regs(0x19f363f9, 0x2f13c4ad, 0x4a0b31ce, 0x85ae57c2, 0xc302badb, 0x1a6cabc9, 0xfe9e3fc9, 0xac36a284),
            40, 0x050df55c, 0x6e46cd08,
            Parts(8, 0x879d8a7a, 0x363f919f, 0xf9424c7a, 0x6feb7a40, 0x59d4ebdf,
                  0x6b4b3854, 0x0b1361ed, 0x3e9cafc9, 0x5fccc1e9),
            Regs(0x55e1dde2, 0x19f363f9, 0x27895a5e, 0x4a0b31ce, 0x459daccf, 0xc302badb, 0x5e48d365, 0xfe9e3fc9));
  }

  lemma Line41()
    ensures RoundCells(Regs(0x55e1dde2, 0x19f363f9, 0x27895a5e, 0x4a0b31ce, 0x459daccf, 0xc302badb, 0x5e48d365, 0xfe9e3fc9),
                       41, Cell(0xcde0104c), Cell(0xe3babdf8))
         == Regs(0xd4f4efe3, 0x55e1dde2, 0xe6c7f233, 0x27895a5e, 0x5cfba85a, 0x459daccf, 0xd6de1815, 0x5e48d365)
  {
    hide RoundCells;
    RoundBy(Regs(0x55e1dde2, 0x19f363f9, 0x27895a5e, 0x4a0b31ce, 0x459daccf, 0xc302badb, 0x5e48d365, 0xfe9e3fc9),
            41, 0xcde0104c, 0xe3babdf8,
            Parts(9, 0x0f3b14f5, 0x1dde255e, 0x637bd22d, 0x5b739139, 0x46adb467,
                  0x2e5aadb4, 0x15e15bfa, 0x5b40fbeb, 0x8332dd39),
            Regs(0xd4f4efe3, 0x55e1dde2, 0xe6c7f233, 0x27895a5e, 0x5cfba85a, 0x459daccf, 0xd6de1815, 0x5e48d365));
  }

  lemma Line42()
    ensures RoundCells(Regs(0xd4f4efe3, 0x55e1dde2, 0xe6c7f233, 0x27895a5e, 0x5cfba85a, 0x459daccf, 0xd6de1815, 0x5e48d365),
                       42, Cell(0xa5b9c955), Cell(0x70caa422))
         == Regs(0x48dcbc62, 0xd4f4efe3, 0xc3bbc4ab, 0xe6c7f233, 0x6f49c7bb, 0x5cfba85a, 0x667a2ced, 0xd6de1815)
  {
    hide RoundCells;
    RoundBy(Regs(0xd4f4efe3, 0x55e1dde2, 0xe6c7f233, 0x27895a5e, 0x5cfba85a, 0x459daccf, 0xd6de1815, 0x5e48d365),
            42, 0xa5b9c955, 0x70caa422,
            Parts(10, 0x1e7629ea, 0x4efe3d4f, 0xabf9e5a9, 0x3807c9e5, 0x76f9f4aa,
                  0xd5736d77, 0xd4e5ffe3, 0xc69db84f, 0x02a81eee),
            Regs(0x48dcbc62, 0xd4f4efe3, 0xc3bbc4ab, 0xe6c7f233, 0x6f49c7bb, 0x5cfba85a, 0x667a2ced, 0xd6de1815));
  }

  lemma Line43()
    ensures RoundCells(Regs(0x48dcbc62, 0xd4f4efe3, 0xc3bbc4ab, 0xe6c7f233, 0x6f49c7bb, 0x5cfba85a, 0x667a2ced, 0xd6de1815),
                       43, Cell(0xa7df0184), Cell(0x0353af50))
         == Regs(0x8237b8a0, 0x48dcbc62, 0xe9dfc7a9, 0xc3bbc4ab, 0xd89d2711, 0x6f49c7bb, 0x42d2e7dd, 0x667a2ced)
  {
    hide RoundCells;
    RoundBy(Regs(0x48dcbc62, 0xd4f4efe3, 0xc3bbc4ab, 0xe6c7f233, 0x6f49c7bb, 0x5cfba85a, 0x667a2ced, 0xd6de1815),
            43, 0xa7df0184, 0x0353af50,
            Parts(11, 0x3cec53d4, 0xcbc6248d, 0x3b0fec48, 0xfe200e3b, 0x35e62ab6,
                  0xa48caed4, 0xc0fcece3, 0x4c7ba85e, 0xc958d032),
            Regs(0x8237b8a0, 0x48dcbc62, 0xe9dfc7a9, 0xc3bbc4ab, 0xd89d2711, 0x6f49c7bb, 0x42d2e7dd, 0x667a2ced));
  }

  lemma Line44()
    ensures RoundCells(Regs(0x8237b8a0, 0x48dcbc62, 0xe9dfc7a9, 0xc3bbc4ab, 0xd89d2711, 0x6f49c7bb, 0x42d2e7dd, 0x667a2ced),
                       44, Cell(0x6e46cd08), Cell(0xa92dbca1))
         == Regs(0xd8685939, 0x8237b8a0, 0xb978c491, 0xe9dfc7a9, 0x8ee87df5, 0xd89d2711, 0x3ddb7a4e, 0x42d2e7dd)
  {
    hide RoundCells;
    RoundBy(Regs(0x8237b8a0, 0x48dcbc62, 0xe9dfc7a9, 0xc3bbc4ab, 0xd89d2711, 0x6f49c7bb, 0x42d2e7dd, 0x667a2ced),
            44, 0x6e46cd08, 0xa92dbca1,
            Parts(12, 0x79d8a7a8, 0x7b8a0823, 0x54272f34, 0xffeb6e66, 0x84616645,
                  0xc76b71a9, 0xc8dfbca0, 0x4a4bc7dd, 0x1ef83038),
            Regs(0xd8685939, 0x8237b8a0, 0xb978c491, 0xe9dfc7a9, 0x8ee87df5, 0xd89d2711, 0x3ddb7a4e, 0x42d2e7dd));
  }

  lemma Line45()
    ensures RoundCells(Regs(0xd8685939, 0x8237b8a0, 0xb978c491, 0xe9dfc7a9, 0x8ee87df5, 0xd89d2711, 0x3ddb7a4e, 0x42d2e7dd),
                       45, Cell(0xe3babdf8), Cell(0x5f33cfd2))
         == Regs(0xd2090a86, 0xd8685939, 0x6f714104, 0xb978c491, 0x2e533625, 0x8ee87df5, 0x388ec4e9, 0x3ddb7a4e)
  {
    hide RoundCells;
    RoundBy(Regs(0xd8685939, 0x8237b8a0, 0xb978c491, 0xe9dfc7a9, 0x8ee87df5, 0xd89d2711, 0x3ddb7a4e, 0x42d2e7dd),
            45, 0xe3babdf8, 0x5f33cfd2,
            Parts(13, 0xf3b14f50, 0x85939d86, 0x147c1b7b, 0x16b56584, 0x9326f802,
                  0xbc89722a, 0x9878d8b1, 0xb99b271b, 0xf6de3274),
            Regs(0xd2090a86, 0xd8685939, 0x6f714104, 0xb978c491, 0x2e533625, 0x8ee87df5, 0x388ec4e9, 0x3ddb7a4e));
  }

  lemma Line46()
    ensures RoundCells(Regs(0xd2090a86, 0xd8685939, 0x6f714104, 0xb978c491, 0x2e533625, 0x8ee87df5, 0x388ec4e9, 0x3ddb7a4e),
                       46, Cell(0x70caa422), Cell(0xe16f6e89))
         == Regs(0xe51076b3, 0xd2090a86, 0xd0b273b0, 0x6f714104, 0xd9f89e61, 0x2e533625, 0xefac7743, 0x388ec4e9)
  {
    hide RoundCells;
    RoundBy(Regs(0xd2090a86, 0xd8685939, 0x6f714104, 0xb978c491, 0x2e533625, 0x8ee87df5, 0x388ec4e9, 0x3ddb7a4e),
            46, 0x70caa422, 0xe16f6e89,
            Parts(14, 0xe7629ea1, 0x90a86d20, 0xbefba345, 0x2f20f353, 0xbf889e73,
                  0x91a5caab, 0xda694904, 0x1eccf4ed, 0xfc9406b0),
            Regs(0xe51076b3, 0xd2090a86, 0xd0b273b0, 0x6f714104, 0xd9f89e61, 0x2e533625, 0xefac7743, 0x388ec4e9));
  }

  lemma Line47()
    ensures RoundCells(Regs(0xe51076b3, 0xd2090a86, 0xd0b273b0, 0x6f714104, 0xd9f89e61, 0x2e533625, 0xefac7743, 0x388ec4e9),
                       47, Cell(0x0353af50), Cell(0xf70fe941))
         == Regs(0x47c5be50, 0xe51076b3, 0x12150da4, 0xd0b273b0, 0x3567734e, 0xd9f89e61, 0xb1297299, 0xefac7743)
  {
    hide RoundCells;
    RoundBy(Regs(0xe51076b3, 0xd2090a86, 0xd0b273b0, 0x6f714104, 0xd9f89e61, 0x2e533625, 0xefac7743, 0x388ec4e9),
            47, 0x0353af50, 0xf70fe941,
            Parts(15, 0xcec53d43, 0x076b3e51, 0xe163dcb2, 0x148cfad8, 0x13e7c489,
                  0xf45c4611, 0xd01072b2, 0x2e547723, 0x7ec3e634),
            Regs(0x47c5be50, 0xe51076b3, 0x12150da4, 0xd0b273b0, 0x3567734e, 0xd9f89e61, 0xb1297299, 0xefac7743));
  }

  /** The registers after 48 rounds. */
  lemma Rounds48()
    ensures RoundsOf(48)
         == Regs(0x47c5be50, 0xe51076b3, 0x12150da4, 0xd0b273b0, 0x3567734e, 0xd9f89e61, 0xb1297299, 0xefac7743)
  {
    hide WordCell, RoundsOf, RoundCells;
    Rounds40();
    Words40();
    RowWords(40, Row40());
    Words48();
    RowWords(48, Row48());
    Line40();
    NextRound(40);
    Line41();
    NextRound(41);
    Line42();
    NextRound(42);
    Line43();
    NextRound(43);
    Line44();
    NextRound(44);
    Line45();
    NextRound(45);
    Line46();
    NextRound(46);
    Line47();
    NextRound(47);
  }

  lemma Line48()
    ensures RoundCells(Regs(0x47c5be50, 0xe51076b3, 0x12150da4, 0xd0b273b0, 0x3567734e, 0xd9f89e61, 0xb1297299, 0xefac7743),
                       48, Cell(0xa92dbca1), Cell(0xca5462dc))
         == Regs(0xabddbdc8, 0x47c5be50, 0x20ed67ca, 0x12150da4, 0x3dfcdd11, 0x3567734e, 0xf30ecfc4, 0xb1297299)
  {
    hide RoundCells;
    RoundBy(Regs(0x47c5be50, 0xe51076b3, 0x12150da4, 0xd0b273b0, 0x3567734e, 0xd9f89e61, 0xb1297299, 0xefac7743),
            48, 0xa92dbca1, 0xca5462dc,
            Parts(16, 0x9d8a7a87, 0x5be5047c, 0x914c77ca, 0x6b792897, 0x309c2ceb,
                  0x6379de7d, 0x47153eb0, 0x916812d1, 0x95bb6f4c),
            Regs(0xabddbdc8, 0x47c5be50, 0x20ed67ca, 0x12150da4, 0x3dfcdd11, 0x3567734e, 0xf30ecfc4, 0xb1297299));
  }

  lemma Line49()
    ensures RoundCells(Regs(0xabddbdc8, 0x47c5be50, 0x20ed67ca, 0x12150da4, 0x3dfcdd11, 0x3567734e, 0xf30ecfc4, 0xb1297299),
                       49, Cell(0x5f33cfd2), Cell(0x85a90152))
         == Regs(0xbd708003, 0xabddbdc8, 0x8b7ca08f, 0x20ed67ca, 0x93494bc0, 0x3dfcdd11, 0x9a71ab3b, 0xf30ecfc4)
  {
    hide RoundCells;
    RoundBy(Regs(0xabddbdc8, 0x47c5be50, 0x20ed67ca, 0x12150da4, 0x3dfcdd11, 0x3567734e, 0xf30ecfc4, 0xb1297299),
            49, 0x5f33cfd2, 0x85a90152,
            Parts(17, 0x3b14f50f, 0xdbdc8abd, 0x19d967ce, 0x772e6eaa, 0xacf2e417,
                  0xda9ace80, 0x23cdbfc8, 0xf76653c4, 0x7ef204d9),
            Regs(0xbd708003, 0xabddbdc8, 0x8b7ca08f, 0x20ed67ca, 0x93494bc0, 0x3dfcdd11, 0x9a71ab3b, 0xf30ecfc4));
  }

  lemma Line50()
    ensures RoundCells(Regs(0xbd708003, 0xabddbdc8, 0x8b7ca08f, 0x20ed67ca, 0x93494bc0, 0x3dfcdd11, 0x9a71ab3b, 0xf30ecfc4),
                       50, Cell(0xe16f6e89), Cell(0x76af6296))
         == Regs(0x15e2f5d3, 0xbd708003, 0xbb7b9157, 0x8b7ca08f, 0xc3956c3f, 0x93494bc0, 0xe889efe6, 0x9a71ab3b)
  {
    hide RoundCells;
    RoundBy(Regs(0xbd708003, 0xabddbdc8, 0x8b7ca08f, 0x20ed67ca, 0x93494bc0, 0x3dfcdd11, 0x9a71ab3b, 0xf30ecfc4),
            50, 0xe16f6e89, 0x76af6296,
            Parts(18, 0x7629ea1e, 0x08003bd7, 0x9b498797, 0xb9b8da88, 0xb1b8e15f,
                  0x97c00c1f, 0xab7ca08b, 0x1978e93b, 0xa7b00210),
            Regs(0x15e2f5d3, 0xbd708003, 0xbb7b9157, 0x8b7ca08f, 0xc3956c3f, 0x93494bc0, 0xe889efe6, 0x9a71ab3b));
  }

  lemma Line51()
    ensures RoundCells(Regs(0x15e2f5d3, 0xbd708003, 0xbb7b9157, 0x8b7ca08f, 0xc3956c3f, 0x93494bc0, 0xe889efe6, 0x9a71ab3b),
                       51, Cell(0xf70fe941), Cell(0xc922bdb2))
         == Regs(0x13826486, 0x15e2f5d3, 0xe100077a, 0xbb7b9157, 0xcd09a51c, 0xc3956c3f, 0x5e049a4a, 0xe889efe6)
  {
    hide RoundCells;
    RoundBy(Regs(0x15e2f5d3, 0xbd708003, 0xbb7b9157, 0x8b7ca08f, 0xc3956c3f, 0x93494bc0, 0xe889efe6, 0x9a71ab3b),
            51, 0xf70fe941, 0xc922bdb2,
            Parts(19, 0xec53d43c, 0x2f5d315e, 0xf2f29d9d, 0xa338ecef, 0x8c65ddb1,
                  0x3e2d54f3, 0xbd729153, 0xab09cbc0, 0xdfc44d2b),
            Regs(0x13826486, 0x15e2f5d3, 0xe100077a, 0xbb7b9157, 0xcd09a51c, 0xc3956c3f, 0x5e049a4a, 0xe889efe6));
  }

  lemma Line52()
    ensures RoundCells(Regs(0x13826486, 0x15e2f5d3, 0xe100077a, 0xbb7b9157, 0xcd09a51c, 0xc3956c3f, 0x5e049a4a, 0xe889efe6),
                       52, Cell(0xca5462dc), Cell(0x68378cf5))
         == Regs(0x4a00ed2f, 0x13826486, 0xc5eba62b, 0xe100077a, 0x0741f675, 0xcd09a51c, 0x61fe1cab, 0x5e049a4a)
  {
    hide RoundCells;
    RoundBy(Regs(0x13826486, 0x15e2f5d3, 0xe100077a, 0xbb7b9157, 0xcd09a51c, 0xc3956c3f, 0x5e049a4a, 0xe889efe6),
            52, 0xca5462dc, 0x68378cf5,
            Parts(20, 0xd8a7a879, 0x26486138, 0xf3520654, 0xfcd766e5, 0xda9f07dd,
                  0xa263ee29, 0x118265d2, 0xd3053e5e, 0x82baf805),
            Regs(0x4a00ed2f, 0x13826486, 0xc5eba62b, 0xe100077a, 0x0741f675, 0xcd09a51c, 0x61fe1cab, 0x5e049a4a));
  }

  lemma Line53()
    ensures RoundCells(Regs(0x4a00ed2f, 0x13826486, 0xc5eba62b, 0xe100077a, 0x0741f675, 0xcd09a51c, 0x61fe1cab, 0x5e049a4a),
                       53, Cell(0x85a90152), Cell(0x97585344))
         == Regs(0xf4412e82, 0x4a00ed2f, 0x04c90c27, 0xc5eba62b, 0x7429807c, 0x0741f675, 0x28e6684d, 0x61fe1cab)
  {
    hide RoundCells;
    RoundBy(Regs(0x4a00ed2f, 0x13826486, 0xc5eba62b, 0xe100077a, 0x0741f675, 0xcd09a51c, 0x61fe1cab, 0x5e049a4a),
            53, 0x85a90152, 0x97585344,
            Parts(21, 0xb14f50f3, 0x0ed2f4a0, 0x1614eb15, 0xb21e0463, 0xbcccf0c3,
                  0x12f15216, 0x4382e42f, 0x65bfac9e, 0xfb8b4c9d),
            Regs(0xf4412e82, 0x4a00ed2f, 0x04c90c27, 0xc5eba62b, 0x7429807c, 0x0741f675, 0x28e6684d, 0x61fe1cab));
  }

  lemma Line54()
    ensures RoundCells(Regs(0xf4412e82, 0x4a00ed2f, 0x04c90c27, 0xc5eba62b, 0x7429807c, 0x0741f675, 0x28e6684d, 0x61fe1cab),
                       54, Cell(0x76af6296), Cell(0x09008723))
         == Regs(0x549db4b7, 0xf4412e82, 0x01da5e94, 0x04c90c27, 0xf6bc15ed, 0x7429807c, 0xb3a83a0f, 0x28e6684d)
  {
    hide RoundCells;
    RoundBy(Regs(0xf4412e82, 0x4a00ed2f, 0x04c90c27, 0xc5eba62b, 0x7429807c, 0x0741f675, 0x28e6684d, 0x61fe1cab),
            54, 0x76af6296, 0x09008723,
            Parts(22, 0x629ea1e7, 0x12e82f44, 0x8711afc0, 0xd828d3f4, 0xcac0fcb0,
                  0x7fafe5b5, 0x44412c27, 0x0cc7e875, 0xbd9e3baa),
            Regs(0x549db4b7, 0xf4412e82, 0x01da5e94, 0x04c90c27, 0xf6bc15ed, 0x7429807c, 0xb3a83a0f, 0x28e6684d));
  }

  lemma Line55()
    ensures RoundCells(Regs(0x549db4b7, 0xf4412e82, 0x01da5e94, 0x04c90c27, 0xf6bc15ed, 0x7429807c, 0xb3a83a0f, 0x28e6684d),
                       55, Cell(0xc922bdb2), Cell(0x86faee74))
         == Regs(0x22a79585, 0x549db4b7, 0x825d05e8, 0x01da5e94, 0x9d4db19a, 0xf6bc15ed, 0x03e3a14c, 0xb3a83a0f)
  {
    hide RoundCells;
    RoundBy(Regs(0x549db4b7, 0xf4412e82, 0x01da5e94, 0x04c90c27, 0xf6bc15ed, 0x7429807c, 0xb3a83a0f, 0x28e6684d),
            55, 0xc922bdb2, 0x86faee74,
            Parts(23, 0xc53d43ce, 0xdb4b7549, 0xd2078b36, 0xa267824b, 0x792cf702,
                  0x4fd853c6, 0x54d93e96, 0x75282a6e, 0x0998d2b8),
            Regs(0x22a79585, 0x549db4b7, 0x825d05e8, 0x01da5e94, 0x9d4db19a, 0xf6bc15ed, 0x03e3a14c, 0xb3a83a0f));
  }

  /** The registers after 56 rounds. */
  lemma Rounds56()
    ensures RoundsOf(56)
         == Regs(0x22a79585, 0x549db4b7, 0x825d05e8, 0x01da5e94, 0x9d4db19a, 0xf6bc15ed, 0x03e3a14c, 0xb3a83a0f)
  {
    hide WordCell, RoundsOf, RoundCells;
    Rounds48();
    Words48();
    RowWords(48, Row48());
    Words56();
    RowWords(56, Row56());
    Line48();
    NextRound(48);
    Line49();
    NextRound(49);
    Line50();
    NextRound(50);
    Line51();
    NextRound(51);
    Line52();
    NextRound(52);
    Line53();
    NextRound(53);
    Line54();
    NextRound(54);
    Line55();
    NextRound(55);
  }

  lemma Line56()
    ensures RoundCells(Regs(0x22a79585, 0x549db4b7, 0x825d05e8, 0x01da5e94, 0x9d4db19a, 0xf6bc15ed, 0x03e3a14c, 0xb3a83a0f),
                       56, Cell(0x68378cf5), Cell(0x2ab908b0))
         == Regs(0x30245b78, 0x22a79585, 0x3b696ea9, 0x825d05e8, 0xf6804c82, 0x9d4db19a, 0xaf6fb5e0, 0x03e3a14c)
  {
    hide RoundCells;
    RoundBy(Regs(0x22a79585, 0x549db4b7, 0x825d05e8, 0x01da5e94, 0x9d4db19a, 0xf6bc15ed, 0x03e3a14c, 0xb3a83a0f),
            56, 0x68378cf5, 0x2ab908b0,
            Parts(24, 0x8a7a879d, 0x7958522a, 0x16a603c4, 0x9045b0d0, 0xe91de2fa,
                  0x428e8445, 0x029d95a5, 0x96ae11cc, 0x42d389a0),
            Regs(0x30245b78, 0x22a79585, 0x3b696ea9, 0x825d05e8, 0xf6804c82, 0x9d4db19a, 0xaf6fb5e0, 0x03e3a14c));
  }

  lemma Line57()
    ensures RoundCells(Regs(0x30245b78, 0x22a79585, 0x3b696ea9, 0x825d05e8, 0xf6804c82, 0x9d4db19a, 0xaf6fb5e0, 0x03e3a14c),
                       57, Cell(0x97585344), Cell(0x4a64bc50))
         == Regs(0x6598314f, 0x30245b78, 0x4f2b0a45, 0x3b696ea9, 0xf522adb2, 0xf6804c82, 0x8cd4ea6d, 0xaf6fb5e0)
  {
    hide RoundCells;
    RoundBy(Regs(0x30245b78, 0x22a79585, 0x3b696ea9, 0x825d05e8, 0xf6804c82, 0x9d4db19a, 0xaf6fb5e0, 0x03e3a14c),
            57, 0x97585344, 0x4a64bc50,
            Parts(25, 0x14f50f3b, 0x45b78302, 0x3c37cf84, 0x966f5fa8, 0xd3d8dcaa,
                  0xdd3cef14, 0x32255fa9, 0x9d6fb1e2, 0xcf1b061a),
            Regs(0x6598314f, 0x30245b78, 0x4f2b0a45, 0x3b696ea9, 0xf522adb2, 0xf6804c82, 0x8cd4ea6d, 0xaf6fb5e0));
  }

  lemma Line58()
    ensures RoundCells(Regs(0x6598314f, 0x30245b78, 0x4f2b0a45, 0x3b696ea9, 0xf522adb2, 0xf6804c82, 0x8cd4ea6d, 0xaf6fb5e0),
                       58, Cell(0x09008723), Cell(0x864e6e08))
         == Regs(0xc3d629a9, 0x6598314f, 0x48b6f060, 0x4f2b0a45, 0x14fb0764, 0xf522adb2, 0x6417b402, 0x8cd4ea6d)
  {
    hide RoundCells;
    RoundBy(Regs(0x6598314f, 0x30245b78, 0x4f2b0a45, 0x3b696ea9, 0xf522adb2, 0xf6804c82, 0x8cd4ea6d, 0xaf6fb5e0),
            58, 0x09008723, 0x864e6e08,
            Parts(26, 0x29ea1e76, 0x8314f659, 0x7837a40b, 0x10e140d1, 0x93f5b688,
                  0x8f4ee92b, 0x65281b4d, 0xfcd44ecf, 0xc625cca3),
            Regs(0xc3d629a9, 0x6598314f, 0x48b6f060, 0x4f2b0a45, 0x14fb0764, 0xf522adb2, 0x6417b402, 0x8cd4ea6d));
  }

  lemma Line59()
    ensures RoundCells(Regs(0xc3d629a9, 0x6598314f, 0x48b6f060, 0x4f2b0a45, 0x14fb0764, 0xf522adb2, 0x6417b402, 0x8cd4ea6d),
                       59, Cell(0x86faee74), Cell(0xf07e6590))
         == Regs(0xddb0a26a, 0xc3d629a9, 0x30629ecb, 0x48b6f060, 0x589f7d5c, 0x14fb0764, 0x6d97a915, 0x6417b402)
  {
    hide RoundCells;
    RoundBy(Regs(0xc3d629a9, 0x6598314f, 0x48b6f060, 0x4f2b0a45, 0x14fb0764, 0xf522adb2, 0x6417b402, 0x8cd4ea6d),
            59, 0x86faee74, 0xf07e6590,
            Parts(27, 0x53d43cec, 0x629a9c3d, 0x7795a3a1, 0xb4f046e5, 0xd66adad8,
                  0x76848be4, 0x41963169, 0x7426b522, 0x3ce6d4e8),
            Regs(0xddb0a26a, 0xc3d629a9, 0x30629ecb, 0x48b6f060, 0x589f7d5c, 0x14fb0764, 0x6d97a915, 0x6417b402));
  }

  lemma Line60()
    ensures RoundCells(Regs(0xddb0a26a, 0xc3d629a9, 0x30629ecb, 0x48b6f060, 0x589f7d5c, 0x14fb0764, 0x6d97a915, 0x6417b402),
                       60, Cell(0x2ab908b0), Cell(0x325c8f78))
         == Regs(0x71034d71, 0xddb0a26a, 0xac535387, 0x30629ecb, 0x14d5c7f6, 0x589f7d5c, 0x3b20a7d8, 0x6d97a915)
  {
    hide RoundCells;
    RoundBy(Regs(0xddb0a26a, 0xc3d629a9, 0x30629ecb, 0x48b6f060, 0x589f7d5c, 0x14fb0764, 0x6d97a915, 0x6417b402),
            60, 0x2ab908b0, 0x325c8f78,
            Parts(28, 0xa7a879d8, 0x0a26addb, 0x62c62b37, 0x37528785, 0x3d742a5e,
                  0x18e587c8, 0xd1f2aaeb, 0x359b8545, 0xfbbec97c),
            Regs(0x71034d71, 0xddb0a26a, 0xac535387, 0x30629ecb, 0x14d5c7f6, 0x589f7d5c, 0x3b20a7d8, 0x6d97a915));
  }

  lemma Line61()
    ensures RoundCells(Regs(0x71034d71, 0xddb0a26a, 0xac535387, 0x30629ecb, 0x14d5c7f6, 0x589f7d5c, 0x3b20a7d8, 0x6d97a915),
                       61, Cell(0x4a64bc50), Cell(0xaccb8011))
         == Regs(0x5e636b4b, 0x71034d71, 0x6144d5bb, 0xac535387, 0x09ccd95e, 0x14d5c7f6, 0xeae2c4fb, 0x3b20a7d8)
  {
    hide RoundCells;
    RoundBy(Regs(0x71034d71, 0xddb0a26a, 0xac535387, 0x30629ecb, 0x14d5c7f6, 0x589f7d5c, 0x3b20a7d8, 0x6d97a915),
            61, 0x4a64bc50, 0xaccb8011,
            Parts(29, 0x4f50f3b1, 0x34d71710, 0x49acdf06, 0x7ee95bcc, 0x4a3e4cdc,
                  0xe6af3c41, 0xfd134363, 0x3bb5655c, 0x729b268d),
            Regs(0x5e636b4b, 0x71034d71, 0x6144d5bb, 0xac535387, 0x09ccd95e, 0x14d5c7f6, 0xeae2c4fb, 0x3b20a7d8));
  }

  lemma Line62()
    ensures RoundCells(Regs(0x5e636b4b, 0x71034d71, 0x6144d5bb, 0xac535387, 0x09ccd95e, 0x14d5c7f6, 0xeae2c4fb, 0x3b20a7d8),
                       62, Cell(0x864e6e08), Cell(0xe11db9dd))
         == Regs(0x2bfa5f60, 0x5e636b4b, 0x069ae2e2, 0x6144d5bb, 0x4ac3cf08, 0x09ccd95e, 0x3fb0a6ae, 0xeae2c4fb)
  {
    hide RoundCells;
    RoundBy(Regs(0x5e636b4b, 0x71034d71, 0x6144d5bb, 0xac535387, 0x09ccd95e, 0x14d5c7f6, 0xeae2c4fb, 0x3b20a7d8),
            62, 0x864e6e08, 0xe11db9dd,
            Parts(30, 0x9ea1e762, 0x36b4b5e6, 0x40818f44, 0x91bb536f, 0xa70fe689,
                  0x6753d7d5, 0x71434d7b, 0xe2e6c5f7, 0x36112f46),
            Regs(0x2bfa5f60, 0x5e636b4b, 0x069ae2e2, 0x6144d5bb, 0x4ac3cf08, 0x09ccd95e, 0x3fb0a6ae, 0xeae2c4fb));
  }

  lemma Line63()
    ensures RoundCells(Regs(0x2bfa5f60, 0x5e636b4b, 0x069ae2e2, 0x6144d5bb, 0x4ac3cf08, 0x09ccd95e, 0x3fb0a6ae, 0xeae2c4fb),
                       63, Cell(0xf07e6590), Cell(0xb99c0545))
         == Regs(0x1547e69b, 0x2bfa5f60, 0xc6d696bc, 0x069ae2e2, 0xe808f43b, 0x4ac3cf08, 0xcaf04e66, 0x3fb0a6ae)
  {
    hide RoundCells;
    RoundBy(Regs(0x2bfa5f60, 0x5e636b4b, 0x069ae2e2, 0x6144d5bb, 0x4ac3cf08, 0x09ccd95e, 0x3fb0a6ae, 0xeae2c4fb),
            63, 0xf07e6590, 0xb99c0545,
            Parts(31, 0x3d43cec5, 0xa5f602bf, 0xf0b9d1c7, 0xfed04616, 0x5b2644a9,
                  0x49e260d5, 0x0efa6b62, 0x3df0e9ae, 0x18225a4f),
            Regs(0x1547e69b, 0x2bfa5f60, 0xc6d696bc, 0x069ae2e2, 0xe808f43b, 0x4ac3cf08, 0xcaf04e66, 0x3fb0a6ae));
  }

  /** The registers after 64 rounds. */
  lemma Rounds64()
    ensures RoundsOf(64)
         == Regs(0x1547e69b, 0x2bfa5f60, 0xc6d696bc, 0x069ae2e2, 0xe808f43b, 0x4ac3cf08, 0xcaf04e66, 0x3fb0a6ae)
  {
    hide WordCell, RoundsOf, RoundCells;
    Rounds56();
    Words56();
    RowWords(56, Row56());
    Words64();
    RowWords(64, Row64());
    Line56();
    NextRound(56);
    Line57();
    NextRound(57);
    Line58();
    NextRound(58);
    Line59();
    NextRound(59);
    Line60();
    NextRound(60);
    Line61();
    NextRound(61);
    Line62();
    NextRound(62);
    Line63();
    NextRound(63);
  }

  lemma Mixed()
    ensures Mix(Regs(0x1547e69b, 0x2bfa5f60, 0xc6d696bc, 0x069ae2e2, 0xe808f43b, 0x4ac3cf08, 0xcaf04e66, 0x3fb0a6ae), IV)
         == Regs(0x66c7f0f4, 0x62eeedd9, 0xd1f2d46b, 0xdc10e4e2, 0x4167c487, 0x5cf2f7a2, 0x297da02b, 0x8f4ba8e0)
  {
  }

  lemma OutputWords()
    ensures WordBytes(0x66c7f0f4) == [0x66, 0xc7, 0xf0, 0xf4]
    ensures WordBytes(0x62eeedd9) == [0x62, 0xee, 0xed, 0xd9]
    ensures WordBytes(0xd1f2d46b) == [0xd1, 0xf2, 0xd4, 0x6b]
    ensures WordBytes(0xdc10e4e2) == [0xdc, 0x10, 0xe4, 0xe2]
    ensures WordBytes(0x4167c487) == [0x41, 0x67, 0xc4, 0x87]
    ensures WordBytes(0x5cf2f7a2) == [0x5c, 0xf2, 0xf7, 0xa2]
    ensures WordBytes(0x297da02b) == [0x29, 0x7d, 0xa0, 0x2b]
    ensures WordBytes(0x8f4ba8e0) == [0x8f, 0x4b, 0xa8, 0xe0]
  {
    hide BigEndian;
    FourBytes(0x66c7f0f4, 0x66, 0xc7, 0xf0, 0xf4);
    FourBytes(0x62eeedd9, 0x62, 0xee, 0xed, 0xd9);
    FourBytes(0xd1f2d46b, 0xd1, 0xf2, 0xd4, 0x6b);
    FourBytes(0xdc10e4e2, 0xdc, 0x10, 0xe4, 0xe2);
    FourBytes(0x4167c487, 0x41, 0x67, 0xc4, 0x87);
    FourBytes(0x5cf2f7a2, 0x5c, 0xf2, 0xf7, 0xa2);
    FourBytes(0x297da02b, 0x29, 0x7d, 0xa0, 0x2b);
    FourBytes(0x8f4ba8e0, 0x8f, 0x4b, 0xa8, 0xe0);
  }

  /** The hash of "abc" is that of Appendix A. */
  lemma HashOfAbc()
    ensures Hash(ABC) == [0x66, 0xc7, 0xf0, 0xf4, 0x62, 0xee, 0xed, 0xd9, 0xd1, 0xf2, 0xd4, 0x6b, 0xdc, 0x10, 0xe4, 0xe2,
                          0x41, 0x67, 0xc4, 0x87, 0x5c, 0xf2, 0xf7, 0xa2, 0x29, 0x7d, 0xa0, 0x2b, 0x8f, 0x4b, 0xa8, 0xe0]
  {
    hide Rounds, Mix, WordBytes, Fold, Padded;
    FoldBlock(Compress, IV);
    Rounds64();
    Mixed();
    OutputWords();
    BlockBytes();
  }
}
