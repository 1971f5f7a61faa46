/** The kernel's table of 256 words (drivers/initfs/initfs_modblob.c) is the register's. */
module Crc32Table {
  import opened Crc32Register

  // ---- The constants ------------------------------------------------------------------

  const ROW_0: seq<bv32> := [
    0x00000000, 0x77073096, 0xEE0E612C, 0x990951BA, 0x076DC419, 0x706AF48F, 0xE963A535, 0x9E6495A3,
    0x0EDB8832, 0x79DCB8A4, 0xE0D5E91E, 0x97D2D988, 0x09B64C2B, 0x7EB17CBD, 0xE7B82D07, 0x90BF1D91
  ]
  const ROW_1: seq<bv32> := [
    0x1DB71064, 0x6AB020F2, 0xF3B97148, 0x84BE41DE, 0x1ADAD47D, 0x6DDDE4EB, 0xF4D4B551, 0x83D385C7,
    0x136C9856, 0x646BA8C0, 0xFD62F97A, 0x8A65C9EC, 0x14015C4F, 0x63066CD9, 0xFA0F3D63, 0x8D080DF5
  ]
  const ROW_2: seq<bv32> := [
    0x3B6E20C8, 0x4C69105E, 0xD56041E4, 0xA2677172, 0x3C03E4D1, 0x4B04D447, 0xD20D85FD, 0xA50AB56B,
    0x35B5A8FA, 0x42B2986C, 0xDBBBC9D6, 0xACBCF940, 0x32D86CE3, 0x45DF5C75, 0xDCD60DCF, 0xABD13D59
  ]
  const ROW_3: seq<bv32> := [
    0x26D930AC, 0x51DE003A, 0xC8D75180, 0xBFD06116, 0x21B4F4B5, 0x56B3C423, 0xCFBA9599, 0xB8BDA50F,
    0x2802B89E, 0x5F058808, 0xC60CD9B2, 0xB10BE924, 0x2F6F7C87, 0x58684C11, 0xC1611DAB, 0xB6662D3D
  ]
  const ROW_4: seq<bv32> := [
    0x76DC4190, 0x01DB7106, 0x98D220BC, 0xEFD5102A, 0x71B18589, 0x06B6B51F, 0x9FBFE4A5, 0xE8B8D433,
    0x7807C9A2, 0x0F00F934, 0x9609A88E, 0xE10E9818, 0x7F6A0DBB, 0x086D3D2D, 0x91646C97, 0xE6635C01
  ]
  const ROW_5: seq<bv32> := [
    0x6B6B51F4, 0x1C6C6162, 0x856530D8, 0xF262004E, 0x6C0695ED, 0x1B01A57B, 0x8208F4C1, 0xF50FC457,
    0x65B0D9C6, 0x12B7E950, 0x8BBEB8EA, 0xFCB9887C, 0x62DD1DDF, 0x15DA2D49, 0x8CD37CF3, 0xFBD44C65
  ]
  const ROW_6: seq<bv32> := [
    0x4DB26158, 0x3AB551CE, 0xA3BC0074, 0xD4BB30E2, 0x4ADFA541, 0x3DD895D7, 0xA4D1C46D, 0xD3D6F4FB,
    0x4369E96A, 0x346ED9FC, 0xAD678846, 0xDA60B8D0, 0x44042D73, 0x33031DE5, 0xAA0A4C5F, 0xDD0D7CC9
  ]
  const ROW_7: seq<bv32> := [
    0x5005713C, 0x270241AA, 0xBE0B1010, 0xC90C2086, 0x5768B525, 0x206F85B3, 0xB966D409, 0xCE61E49F,
    0x5EDEF90E, 0x29D9C998, 0xB0D09822, 0xC7D7A8B4, 0x59B33D17, 0x2EB40D81, 0xB7BD5C3B, 0xC0BA6CAD
  ]
  const ROW_8: seq<bv32> := [
    0xEDB88320, 0x9ABFB3B6, 0x03B6E20C, 0x74B1D29A, 0xEAD54739, 0x9DD277AF, 0x04DB2615, 0x73DC1683,
    0xE3630B12, 0x94643B84, 0x0D6D6A3E, 0x7A6A5AA8, 0xE40ECF0B, 0x9309FF9D, 0x0A00AE27, 0x7D079EB1
  ]
  const ROW_9: seq<bv32> := [
    0xF00F9344, 0x8708A3D2, 0x1E01F268, 0x6906C2FE, 0xF762575D, 0x806567CB, 0x196C3671, 0x6E6B06E7,
    0xFED41B76, 0x89D32BE0, 0x10DA7A5A, 0x67DD4ACC, 0xF9B9DF6F, 0x8EBEEFF9, 0x17B7BE43, 0x60B08ED5
  ]
  const ROW_A: seq<bv32> := [
    0xD6D6A3E8, 0xA1D1937E, 0x38D8C2C4, 0x4FDFF252, 0xD1BB67F1, 0xA6BC5767, 0x3FB506DD, 0x48B2364B,
    0xD80D2BDA, 0xAF0A1B4C, 0x36034AF6, 0x41047A60, 0xDF60EFC3, 0xA867DF55, 0x316E8EEF, 0x4669BE79
  ]
  const ROW_B: seq<bv32> := [
    0xCB61B38C, 0xBC66831A, 0x256FD2A0, 0x5268E236, 0xCC0C7795, 0xBB0B4703, 0x220216B9, 0x5505262F,
    0xC5BA3BBE, 0xB2BD0B28, 0x2BB45A92, 0x5CB36A04, 0xC2D7FFA7, 0xB5D0CF31, 0x2CD99E8B, 0x5BDEAE1D
  ]
  const ROW_C: seq<bv32> := [
    0x9B64C2B0, 0xEC63F226, 0x756AA39C, 0x026D930A, 0x9C0906A9, 0xEB0E363F, 0x72076785, 0x05005713,
    0x95BF4A82, 0xE2B87A14, 0x7BB12BAE, 0x0CB61B38, 0x92D28E9B, 0xE5D5BE0D, 0x7CDCEFB7, 0x0BDBDF21
  ]
  const ROW_D: seq<bv32> := [
    0x86D3D2D4, 0xF1D4E242, 0x68DDB3F8, 0x1FDA836E, 0x81BE16CD, 0xF6B9265B, 0x6FB077E1, 0x18B74777,
    0x88085AE6, 0xFF0F6A70, 0x66063BCA, 0x11010B5C, 0x8F659EFF, 0xF862AE69, 0x616BFFD3, 0x166CCF45
  ]
  const ROW_E: seq<bv32> := [
    0xA00AE278, 0xD70DD2EE, 0x4E048354, 0x3903B3C2, 0xA7672661, 0xD06016F7, 0x4969474D, 0x3E6E77DB,
    0xAED16A4A, 0xD9D65ADC, 0x40DF0B66, 0x37D83BF0, 0xA9BCAE53, 0xDEBB9EC5, 0x47B2CF7F, 0x30B5FFE9
  ]
  const ROW_F: seq<bv32> := [
    0xBDBDF21C, 0xCABAC28A, 0x53B39330, 0x24B4A3A6, 0xBAD03605, 0xCDD70693, 0x54DE5729, 0x23D967BF,
    0xB3667A2E, 0xC4614AB8, 0x5D681B02, 0x2A6F2B94, 0xB40BBE37, 0xC30C8EA1, 0x5A05DF1B, 0x2D02EF8D
  ]

  // The table from each row on.
  const TAB_F: seq<bv32> := ROW_F + []
  const TAB_E: seq<bv32> := ROW_E + TAB_F
  const TAB_D: seq<bv32> := ROW_D + TAB_E
  const TAB_C: seq<bv32> := ROW_C + TAB_D
  const TAB_B: seq<bv32> := ROW_B + TAB_C
  const TAB_A: seq<bv32> := ROW_A + TAB_B
  const TAB_9: seq<bv32> := ROW_9 + TAB_A
  const TAB_8: seq<bv32> := ROW_8 + TAB_9
  const TAB_7: seq<bv32> := ROW_7 + TAB_8
  const TAB_6: seq<bv32> := ROW_6 + TAB_7
  const TAB_5: seq<bv32> := ROW_5 + TAB_6
  const TAB_4: seq<bv32> := ROW_4 + TAB_5
  const TAB_3: seq<bv32> := ROW_3 + TAB_4
  const TAB_2: seq<bv32> := ROW_2 + TAB_3
  const TAB_1: seq<bv32> := ROW_1 + TAB_2
  const TAB_0: seq<bv32> := ROW_0 + TAB_1

  const CRC32_TAB: seq<bv32> := TAB_0

  // ---- The table is the register's ------------------------------------------------------

  /** Sixteen values in a row are those of `w` from `i` on. */
  ghost predicate RowOf<T>(w: nat -> T, row: seq<T>, i: nat) {
    row == [w(i), w(i + 1), w(i + 2), w(i + 3), w(i + 4), w(i + 5), w(i + 6), w(i + 7),
            w(i + 8), w(i + 9), w(i + 10), w(i + 11), w(i + 12), w(i + 13), w(i + 14), w(i + 15)]
  }

  /** The values of `s` are those of `w` from `i` on. */
  ghost predicate Lists<T>(w: nat -> T, s: seq<T>, i: nat) {
    s == [] || (s[0] == w(i) && Lists(w, s[1..], i + 1))
  }

  lemma {:induction false} ListsAt<T>(w: nat -> T, s: seq<T>, i: nat, k: nat)
    requires Lists(w, s, i) && k < |s|
    ensures s[k] == w(i + k)
  {
    if k > 0 {
      ListsAt(w, s[1..], i + 1, k - 1);
    }
  }

  lemma {:induction false} ListsFrom<T>(w: nat -> T, s: seq<T>, i: nat)
    requires forall k | 0 <= k < |s| :: s[k] == w(i + k)
    ensures Lists(w, s, i)
  {
    if s != [] {
      assert forall k | 0 <= k < |s[1..]| :: s[1..][k] == s[k + 1];
      ListsFrom(w, s[1..], i + 1);
    }
  }

  lemma PutRow<T>(w: nat -> T, row: seq<T>, rest: seq<T>, i: nat)
    requires RowOf(w, row, i) && Lists(w, rest, i + 16)
    ensures Lists(w, row + rest, i)
  {
    forall k | 0 <= k < |row + rest| ensures (row + rest)[k] == w(i + k) {
      if k >= 16 {
        ListsAt(w, rest, i + 16, k - 16);
      }
    }
    ListsFrom(w, row + rest, i);
  }

  /** The register's word for index `i`. */
  function Word(i: nat): bv32 {
    if i < 256 then var c := i as bv32; Bit(Bit(Bit(Bit(Bit(Bit(Bit(Bit(c)))))))) else 0
  }

  lemma Row0(i: nat)
    requires i == 0
    ensures RowOf(Word, ROW_0, i)
  {
  }

  lemma Row1()
    ensures RowOf(Word, ROW_1, 0x10)
  {
  }

  lemma Row2()
    ensures RowOf(Word, ROW_2, 0x20)
  {
  }

  lemma Row3()
    ensures RowOf(Word, ROW_3, 0x30)
  {
  }

  lemma Row4()
    ensures RowOf(Word, ROW_4, 0x40)
  {
  }

  lemma Row5()
    ensures RowOf(Word, ROW_5, 0x50)
  {
  }

  lemma Row6()
    ensures RowOf(Word, ROW_6, 0x60)
  {
  }

  lemma Row7()
    ensures RowOf(Word, ROW_7, 0x70)
  {
  }

  lemma Row8()
    ensures RowOf(Word, ROW_8, 0x80)
  {
  }

  lemma Row9()
    ensures RowOf(Word, ROW_9, 0x90)
  {
  }

  lemma RowA()
    ensures RowOf(Word, ROW_A, 0xA0)
  {
  }

  lemma RowB()
    ensures RowOf(Word, ROW_B, 0xB0)
  {
  }

  lemma RowC()
    ensures RowOf(Word, ROW_C, 0xC0)
  {
  }

  lemma RowD()
    ensures RowOf(Word, ROW_D, 0xD0)
  {
  }

  lemma RowE()
    ensures RowOf(Word, ROW_E, 0xE0)
  {
  }

  lemma RowF()
    ensures RowOf(Word, ROW_F, 0xF0)
  {
  }

  // The rows put together from the last one back, four at a time.

  lemma FromC()
    ensures Lists(Word, TAB_C, 0xC0)
  {
    assert Lists(Word, TAB_F, 0xF0) by {
      RowF();
      PutRow(Word, ROW_F, [], 0xF0);
    }
    assert Lists(Word, TAB_E, 0xE0) by {
      RowE();
      PutRow(Word, ROW_E, TAB_F, 0xE0);
    }
    assert Lists(Word, TAB_D, 0xD0) by {
      RowD();
      PutRow(Word, ROW_D, TAB_E, 0xD0);
    }
    assert Lists(Word, TAB_C, 0xC0) by {
      RowC();
      PutRow(Word, ROW_C, TAB_D, 0xC0);
    }
  }

  lemma From8()
    ensures Lists(Word, TAB_8, 0x80)
  {
    FromC();
    assert Lists(Word, TAB_B, 0xB0) by {
      RowB();
      PutRow(Word, ROW_B, TAB_C, 0xB0);
    }
    assert Lists(Word, TAB_A, 0xA0) by {
      RowA();
      PutRow(Word, ROW_A, TAB_B, 0xA0);
    }
    assert Lists(Word, TAB_9, 0x90) by {
      Row9();
      PutRow(Word, ROW_9, TAB_A, 0x90);
    }
    assert Lists(Word, TAB_8, 0x80) by {
      Row8();
      PutRow(Word, ROW_8, TAB_9, 0x80);
    }
  }

  lemma From4()
    ensures Lists(Word, TAB_4, 0x40)
  {
    From8();
    assert Lists(Word, TAB_7, 0x70) by {
      Row7();
      PutRow(Word, ROW_7, TAB_8, 0x70);
    }
    assert Lists(Word, TAB_6, 0x60) by {
      Row6();
      PutRow(Word, ROW_6, TAB_7, 0x60);
    }
    assert Lists(Word, TAB_5, 0x50) by {
      Row5();
      PutRow(Word, ROW_5, TAB_6, 0x50);
    }
    assert Lists(Word, TAB_4, 0x40) by {
      Row4();
      PutRow(Word, ROW_4, TAB_5, 0x40);
    }
  }

  lemma From1()
    ensures Lists(Word, TAB_1, 0x10)
  {
    From4();
    assert Lists(Word, TAB_3, 0x30) by {
      Row3();
      PutRow(Word, ROW_3, TAB_4, 0x30);
    }
    assert Lists(Word, TAB_2, 0x20) by {
      Row2();
      PutRow(Word, ROW_2, TAB_3, 0x20);
    }
    assert Lists(Word, TAB_1, 0x10) by {
      Row1();
      PutRow(Word, ROW_1, TAB_2, 0x10);
    }
  }

  lemma From0(i: nat)
    requires i == 0
    ensures Lists(Word, TAB_0, i)
  {
    Row0(i);
    From1();
    PutRow(Word, ROW_0, TAB_1, i);
  }

  lemma WordIsRegister(i: nat)
    requires i < 256
    ensures Word(i) == Iter(Bit, i as bv32, 8)
  {
    Unrolled(Bit, i as bv32);
  }

  /** The kernel's 256 constants are the register's words, at every index. */
  lemma TableIsComputed(i: nat)
    requires i < 256
    ensures |CRC32_TAB| == 256 && CRC32_TAB[i] == Iter(Bit, i as bv32, 8)
  {
    From0(0);
    ListsAt(Word, CRC32_TAB, 0, i);
    WordIsRegister(i);
  }
}
