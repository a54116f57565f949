/**
 The three constant tables of src/rs.c, entry by entry.  A page of 256 entries is a function of
 a byte; sixteen entries are one 128-bit row, first entry in front, as the source prints them.
 The lemmas compare neighbouring entries, so that module Gf256 can identify every entry with the
 field arithmetic it stands for.
 */
module RsTables {

  /** Addition in GF(2^8). */
  function Add(a: bv8, b: bv8): bv8 {
    a ^ b
  }

  /** Multiplication by x modulo the field polynomial x^8+x^4+x^3+x^2+1. */
  function Xtime(b: bv8): bv8 {
    var h := b >> 7;
    (b << 1) ^ h ^ (h << 2) ^ (h << 3) ^ (h << 4)
  }

  function Half128(row: bv128, second: bool): bv64 {
    if second then (row & 0xffff_ffff_ffff_ffff) as bv64 else (row >> 64) as bv64
  }

  function Half64(row: bv64, second: bool): bv32 {
    if second then (row & 0xffff_ffff) as bv32 else (row >> 32) as bv32
  }

  function Half32(row: bv32, second: bool): bv16 {
    if second then (row & 0xffff) as bv16 else (row >> 16) as bv16
  }

  function Half16(row: bv16, second: bool): bv8 {
    if second then (row & 0xff) as bv8 else (row >> 8) as bv8
  }

  /** Word j of a row of four. */
  function WordEntry(row: bv128, j: bv8): bv32 {
    Half64(Half128(row, j & 2 != 0), j & 1 != 0)
  }

  /** Byte j of a row of sixteen. */
  function Entry(row: bv128, j: bv8): bv8 {
    Half16(Half32(WordEntry(row, j >> 2), j & 2 != 0), j & 1 != 0)
  }

  /** t_exp[0..256] */
  function ExpRow0(k: bv8): bv128 {
    match k
    case 0 => 0x01020408102040801d3a74e8cd871326
    case 1 => 0x4c982d5ab475eac98f03060c183060c0
    case 2 => 0x9d274e9c254a94356ad4b577eec19f23
    case 3 => 0x468c050a142850a05dba69d2b96fdea1
    case 4 => 0x5fbe61c2992f5ebc65ca890f1e3c78f0
    case 5 => 0xfde7d3bb6bd6b17ffee1dfa35bb671e2
    case 6 => 0xd9af4386112244880d1a3468d0bd67ce
    case 7 => 0x811f3e7cf8edc7933b76ecc5973366cc
    case 8 => 0x85172e5cb86ddaa94f9e214284152a54
    case 9 => 0xa84d9a2952a455aa49923972e4d5b773
    case 10 => 0xe6d1bf63c6913f7efce5d7b37bf6f1ff
    case 11 => 0xe3dbab4b963162c495376edca557ae41
    case 12 => 0x82193264c88d070e1c3870e0dda753a6
    case 13 => 0x51a259b279f2f9efc39b2b56ac458a09
    case 14 => 0x122448903d7af4f5f7f3fbebcb8b0b16
    case _ => 0x2c58b07dfae9cf831b366cd8ad478e01
  }

  function ExpPage0(i: bv8): bv8 {
    Entry(ExpRow0(i >> 4), i)
  }

  /** t_exp[256..512] */
  function ExpRow1(k: bv8): bv128 {
    match k
    case 0 => 0x020408102040801d3a74e8cd8713264c
    case 1 => 0x982d5ab475eac98f03060c183060c09d
    case 2 => 0x274e9c254a94356ad4b577eec19f2346
    case 3 => 0x8c050a142850a05dba69d2b96fdea15f
    case 4 => 0xbe61c2992f5ebc65ca890f1e3c78f0fd
    case 5 => 0xe7d3bb6bd6b17ffee1dfa35bb671e2d9
    case 6 => 0xaf4386112244880d1a3468d0bd67ce81
    case 7 => 0x1f3e7cf8edc7933b76ecc5973366cc85
    case 8 => 0x172e5cb86ddaa94f9e214284152a54a8
    case 9 => 0x4d9a2952a455aa49923972e4d5b773e6
    case 10 => 0xd1bf63c6913f7efce5d7b37bf6f1ffe3
    case 11 => 0xdbab4b963162c495376edca557ae4182
    case 12 => 0x193264c88d070e1c3870e0dda753a651
    case 13 => 0xa259b279f2f9efc39b2b56ac458a0912
    case 14 => 0x2448903d7af4f5f7f3fbebcb8b0b162c
    case _ => 0x58b07dfae9cf831b366cd8ad478e0102
  }

  function ExpPage1(i: bv8): bv8 {
    Entry(ExpRow1(i >> 4), i)
  }

  /** t_exp[512..768] */
  function ExpRow2(k: bv8): bv128 {
    match k
    case 0 => 0x0408102040801d3a74e8cd8713264c98
    case 1 => 0x2d5ab475eac98f03060c183060c09d27
    case 2 => 0x4e9c254a94356ad4b577eec19f23468c
    case 3 => 0x050a142850a05dba69d2b96fdea15fbe
    case 4 => 0x61c2992f5ebc65ca890f1e3c78f0fde7
    case 5 => 0xd3bb6bd6b17ffee1dfa35bb671e2d9af
    case 6 => 0x4386112244880d1a3468d0bd67ce811f
    case 7 => 0x3e7cf8edc7933b76ecc5973366cc8517
    case 8 => 0x2e5cb86ddaa94f9e214284152a54a84d
    case 9 => 0x9a2952a455aa49923972e4d5b773e6d1
    case 10 => 0xbf63c6913f7efce5d7b37bf6f1ffe3db
    case 11 => 0xab4b963162c495376edca557ae418219
    case 12 => 0x3264c88d070e1c3870e0dda753a651a2
    case 13 => 0x59b279f2f9efc39b2b56ac458a091224
    case 14 => 0x48903d7af4f5f7f3fbebcb8b0b162c58
    case _ => 0xb07dfae9cf831b366cd8ad478e010204
  }

  function ExpPage2(i: bv8): bv8 {
    Entry(ExpRow2(i >> 4), i)
  }

  /** t_log */
  function LogTable(i: bv8): bv8 {
    var row: bv128 := match i >> 4
      case 0 => 0x0000011902321ac603df33ee1b68c74b
      case 1 => 0x0464e00e348def811cc169f8c8084c71
      case 2 => 0x058a652fe1240f2135938edaf0128245
      case 3 => 0x1db5c27d6a27f9b9c99a09784de472a6
      case 4 => 0x06bf8b6266dd30fde29825b310912288
      case 5 => 0x36d094ce8f96dbbdf1d2135c83384640
      case 6 => 0x1e42b6a3c3487e6e6b3a2854fa85ba3d
      case 7 => 0xca5e9b9f0a15792b4ed4e5ac73f3a757
      case 8 => 0x0770c0f78c80630d674adeed31c5fe18
      case 9 => 0xe3a5997726b8b47c114492d92320892e
      case 10 => 0x373fd15b95bccfcd908797b2dcfcbe61
      case 11 => 0xf256d3ab142a5d9e843c3953476d41a2
      case 12 => 0x1f2d43d8b77ba476c41749ec7f0c6ff6
      case 13 => 0x6ca13b52299d55aafb6086b1bbcc3e5a
      case 14 => 0xcb595fb09ca9a0510bf516eb7a752cd7
      case _ => 0x4faed5e9e6e7ade874d6f4eaa85058af
    ;
    Entry(row, i)
  }

  /** t_rem[0..64], four words to the row */
  function RemQuarter0(i: bv8): bv32 {
    var row: bv128 := match (i >> 2) & 15
      case 0 => 0x000000000f3678401e6cf080115a88c0
      case 1 => 0x3cd8fd1d33ee855d22b40d9d2d8275dd
      case 2 => 0x78ade73a779b9f7a66c117ba69f76ffa
      case 3 => 0x44751a274b4362675a19eaa7552f92e7
      case 4 => 0xf047d374ff71ab34ee2b23f4e11d5bb4
      case 5 => 0xcc9f2e69c3a95629d2f3dee9ddc5a6a9
      case 6 => 0x88ea344e87dc4c0e9686c4ce99b0bc8e
      case 7 => 0xb432c953bb04b113aa5e39d3a5684193
      case 8 => 0xfd8ebbe8f2b8c3a8e3e24b68ecd43328
      case 9 => 0xc15646f5ce603eb5df3ab675d00cce35
      case 10 => 0x85235cd28a1524929b4fac529479d412
      case 11 => 0xb9fba1cfb6cdd98fa797514fa8a1290f
      case 12 => 0x0dc9689c02ff10dc13a5981c1c93e05c
      case 13 => 0x311195813e27edc12f7d6501204b1d41
      case 14 => 0x75648fa67a52f7e66b087f26643e0766
      case _ => 0x49bc72bb468a0afb57d0823b58e6fa7b
    ;
    WordEntry(row, i)
  }

  /** t_rem[64..128], four words to the row */
  function RemQuarter1(i: bv8): bv32 {
    var row: bv128 := match (i >> 2) & 15
      case 0 => 0xe7016bcde837138df96d9b4df65be30d
      case 1 => 0xdbd996d0d4efee90c5b56650ca831e10
      case 2 => 0x9fac8cf7909af4b781c07c778ef60437
      case 3 => 0xa37471eaac4209aabd18816ab22ef92a
      case 4 => 0x1746b8b91870c0f9092a4839061c3079
      case 5 => 0x2b9e45a424a83de435f2b5243ac4cd64
      case 6 => 0x6feb5f8360dd27c37187af037eb1d743
      case 7 => 0x5333a29e5c05dade4d5f521e42692a5e
      case 8 => 0x1a8fd02515b9a86504e320a50bd558e5
      case 9 => 0x26572d3829615578383bddb8370da5f8
      case 10 => 0x6222371f6d144f5f7c4ec79f7378bfdf
      case 11 => 0x5efaca0251ccb24240963a824fa042c2
      case 12 => 0xeac80351e5fe7b11f4a4f3d1fb928b91
      case 13 => 0xd610fe4cd926860cc87c0eccc74a768c
      case 14 => 0x9265e46b9d539c2b8c0914eb833f6cab
      case _ => 0xaebd1976a18b6136b0d1e9f6bfe791b6
    ;
    WordEntry(row, i)
  }

  /** t_rem[128..192], four words to the row */
  function RemQuarter2(i: bv8): bv32 {
    var row: bv128 := match (i >> 2) & 15
      case 0 => 0xd302d687dc34aec7cd6e2607c2585e47
      case 1 => 0xefda2b9ae0ec53daf1b6db1afe80a35a
      case 2 => 0xabaf31bda49949fdb5c3c13dbaf5b97d
      case 3 => 0x9777cca09841b4e0891b3c20862d4460
      case 4 => 0x234505f32c737db33d29f573321f8d33
      case 5 => 0x1f9df8ee10ab80ae01f1086e0ec7702e
      case 6 => 0x5be8e2c954de9a89458412494ab26a09
      case 7 => 0x67301fd468066794795cef54766a9714
      case 8 => 0x2e8c6d6f21ba152f30e09def3fd6e5af
      case 9 => 0x125490721d62e8320c3860f2030e18b2
      case 10 => 0x56218a555917f215484d7ad5477b0295
      case 11 => 0x6af9774865cf0f08749587c87ba3ff88
      case 12 => 0xdecbbe1bd1fdc65bc0a74e9bcf9136db
      case 13 => 0xe2134306ed253b46fc7fb386f349cbc6
      case 14 => 0xa6665921a9502161b80aa9a1b73cd1e1
      case _ => 0x9abea43c9588dc7c84d254bc8be42cfc
    ;
    WordEntry(row, i)
  }

  /** t_rem[192..256], four words to the row */
  function RemQuarter3(i: bv8): bv32 {
    var row: bv128 := match (i >> 2) & 15
      case 0 => 0x3403bd4a3b35c50a2a6f4dca2559358a
      case 1 => 0x08db405707ed381716b7b0d71981c897
      case 2 => 0x4cae5a704398223052c2aaf05df4d2b0
      case 3 => 0x7076a76d7f40df2d6e1a57ed612c2fad
      case 4 => 0xc4446e3ecb72167eda289ebed51ee6fe
      case 5 => 0xf89c9323f7aaeb63e6f063a3e9c61be3
      case 6 => 0xbce98904b3dff144a2857984adb301c4
      case 7 => 0x803174198f070c599e5d8499916bfcd9
      case 8 => 0xc98d06a2c6bb7ee2d7e1f622d8d78e62
      case 9 => 0xf555fbbffa6383ffeb390b3fe40f737f
      case 10 => 0xb120e198be1699d8af4c1118a07a6958
      case 11 => 0x8df81c8582ce64c59394ec059ca29445
      case 12 => 0x39cad5d636fcad9627a6255628905d16
      case 13 => 0x051228cb0a24508b1b7ed84b1448a00b
      case 14 => 0x416732ec4e514aac5f0bc26c503dba2c
      case _ => 0x7dbfcff17289b7b163d33f716ce54731
    ;
    WordEntry(row, i)
  }

  /** t_rem */
  function RemTable(i: bv8): bv32 {
    match i >> 6
    case 0 => RemQuarter0(i)
    case 1 => RemQuarter1(i)
    case 2 => RemQuarter2(i)
    case _ => RemQuarter3(i)
  }
  /** Each entry of the row is the double of the one before. */
  predicate Doubling(row: bv128) {
    Entry(row, 1) == Xtime(Entry(row, 0)) &&
    Entry(row, 2) == Xtime(Entry(row, 1)) &&
    Entry(row, 3) == Xtime(Entry(row, 2)) &&
    Entry(row, 4) == Xtime(Entry(row, 3)) &&
    Entry(row, 5) == Xtime(Entry(row, 4)) &&
    Entry(row, 6) == Xtime(Entry(row, 5)) &&
    Entry(row, 7) == Xtime(Entry(row, 6)) &&
    Entry(row, 8) == Xtime(Entry(row, 7)) &&
    Entry(row, 9) == Xtime(Entry(row, 8)) &&
    Entry(row, 10) == Xtime(Entry(row, 9)) &&
    Entry(row, 11) == Xtime(Entry(row, 10)) &&
    Entry(row, 12) == Xtime(Entry(row, 11)) &&
    Entry(row, 13) == Xtime(Entry(row, 12)) &&
    Entry(row, 14) == Xtime(Entry(row, 13)) &&
    Entry(row, 15) == Xtime(Entry(row, 14))
  }

  lemma DoublingAt(row: bv128, j: bv8)
    requires Doubling(row) && j < 15
    ensures Entry(row, j + 1) == Xtime(Entry(row, j))
  {
    hide Entry, Xtime;
    match j
    case 0 => assert j == 0;
    case 1 => assert j == 1;
    case 2 => assert j == 2;
    case 3 => assert j == 3;
    case 4 => assert j == 4;
    case 5 => assert j == 5;
    case 6 => assert j == 6;
    case 7 => assert j == 7;
    case 8 => assert j == 8;
    case 9 => assert j == 9;
    case 10 => assert j == 10;
    case 11 => assert j == 11;
    case 12 => assert j == 12;
    case 13 => assert j == 13;
    case _ => assert j == 14;
  }

  /** Only the last four bits of an index tell the place in the row. */
  lemma EntryLow(row: bv128, i: bv8)
    ensures Entry(row, i) == Entry(row, i & 15)
  {
    hide WordEntry, Half32, Half16;
    assert ((i & 15) >> 2) & 2 == (i >> 2) & 2 && ((i & 15) >> 2) & 1 == (i >> 2) & 1;
    assert (i & 15) & 2 == i & 2 && (i & 15) & 1 == i & 1;
    SameWord(row, i >> 2, (i & 15) >> 2);
  }

  lemma SameWord(row: bv128, i: bv8, j: bv8)
    requires i & 2 == j & 2 && i & 1 == j & 1
    ensures WordEntry(row, i) == WordEntry(row, j)
  {
    hide Half128, Half64;
  }

  /** Where i + 1 lies. */
  lemma NextIndex(i: bv8)
    requires i != 255
    ensures i & 15 < 15 ==> (i + 1) >> 4 == i >> 4 && (i + 1) & 15 == (i & 15) + 1
    ensures i & 15 == 15 ==> (i + 1) >> 4 == (i >> 4) + 1 && (i + 1) & 15 == 0 && i >> 4 < 15
    ensures i & 15 <= 15 && i >> 4 <= 15
  {
  }

  lemma ExpRow0Quarter0(k: bv8)
    requires k < 4
    ensures Doubling(ExpRow0(k)) && (k < 15 ==> Entry(ExpRow0(k + 1), 0) == Xtime(Entry(ExpRow0(k), 15)))
  {
    match k
    case 0 => assert k == 0;
    case 1 => assert k == 1;
    case 2 => assert k == 2;
    case _ => assert k == 3;
  }

  lemma ExpRow0Quarter1(k: bv8)
    requires 4 <= k < 8
    ensures Doubling(ExpRow0(k)) && (k < 15 ==> Entry(ExpRow0(k + 1), 0) == Xtime(Entry(ExpRow0(k), 15)))
  {
    match k
    case 4 => assert k == 4;
    case 5 => assert k == 5;
    case 6 => assert k == 6;
    case _ => assert k == 7;
  }

  lemma ExpRow0Quarter2(k: bv8)
    requires 8 <= k < 12
    ensures Doubling(ExpRow0(k)) && (k < 15 ==> Entry(ExpRow0(k + 1), 0) == Xtime(Entry(ExpRow0(k), 15)))
  {
    match k
    case 8 => assert k == 8;
    case 9 => assert k == 9;
    case 10 => assert k == 10;
    case _ => assert k == 11;
  }

  lemma ExpRow0Quarter3(k: bv8)
    requires 12 <= k <= 15
    ensures Doubling(ExpRow0(k)) && (k < 15 ==> Entry(ExpRow0(k + 1), 0) == Xtime(Entry(ExpRow0(k), 15)))
  {
    match k
    case 12 => assert k == 12;
    case 13 => assert k == 13;
    case 14 => assert k == 14;
    case _ => assert k == 15;
  }

  lemma ExpPage0Step(i: bv8)
    requires i != 255
    ensures ExpPage0(i + 1) == Xtime(ExpPage0(i))
  {
    hide ExpRow0, Doubling, Entry, Xtime;
    NextIndex(i);
    match i >> 6 {
      case 0 => ExpRow0Quarter0(i >> 4);
      case 1 => ExpRow0Quarter1(i >> 4);
      case 2 => ExpRow0Quarter2(i >> 4);
      case _ => ExpRow0Quarter3(i >> 4);
    }
    EntryLow(ExpRow0(i >> 4), i);
    EntryLow(ExpRow0((i + 1) >> 4), i + 1);
    if i & 15 < 15 {
      DoublingAt(ExpRow0(i >> 4), i & 15);
    }
  }

  lemma ExpRow1Quarter0(k: bv8)
    requires k < 4
    ensures Doubling(ExpRow1(k)) && (k < 15 ==> Entry(ExpRow1(k + 1), 0) == Xtime(Entry(ExpRow1(k), 15)))
  {
    match k
    case 0 => assert k == 0;
    case 1 => assert k == 1;
    case 2 => assert k == 2;
    case _ => assert k == 3;
  }

  lemma ExpRow1Quarter1(k: bv8)
    requires 4 <= k < 8
    ensures Doubling(ExpRow1(k)) && (k < 15 ==> Entry(ExpRow1(k + 1), 0) == Xtime(Entry(ExpRow1(k), 15)))
  {
    match k
    case 4 => assert k == 4;
    case 5 => assert k == 5;
    case 6 => assert k == 6;
    case _ => assert k == 7;
  }

  lemma ExpRow1Quarter2(k: bv8)
    requires 8 <= k < 12
    ensures Doubling(ExpRow1(k)) && (k < 15 ==> Entry(ExpRow1(k + 1), 0) == Xtime(Entry(ExpRow1(k), 15)))
  {
    match k
    case 8 => assert k == 8;
    case 9 => assert k == 9;
    case 10 => assert k == 10;
    case _ => assert k == 11;
  }

  lemma ExpRow1Quarter3(k: bv8)
    requires 12 <= k <= 15
    ensures Doubling(ExpRow1(k)) && (k < 15 ==> Entry(ExpRow1(k + 1), 0) == Xtime(Entry(ExpRow1(k), 15)))
  {
    match k
    case 12 => assert k == 12;
    case 13 => assert k == 13;
    case 14 => assert k == 14;
    case _ => assert k == 15;
  }

  lemma ExpPage1Step(i: bv8)
    requires i != 255
    ensures ExpPage1(i + 1) == Xtime(ExpPage1(i))
  {
    hide ExpRow1, Doubling, Entry, Xtime;
    NextIndex(i);
    match i >> 6 {
      case 0 => ExpRow1Quarter0(i >> 4);
      case 1 => ExpRow1Quarter1(i >> 4);
      case 2 => ExpRow1Quarter2(i >> 4);
      case _ => ExpRow1Quarter3(i >> 4);
    }
    EntryLow(ExpRow1(i >> 4), i);
    EntryLow(ExpRow1((i + 1) >> 4), i + 1);
    if i & 15 < 15 {
      DoublingAt(ExpRow1(i >> 4), i & 15);
    }
  }

  lemma ExpRow2Quarter0(k: bv8)
    requires k < 4
    ensures Doubling(ExpRow2(k)) && (k < 15 ==> Entry(ExpRow2(k + 1), 0) == Xtime(Entry(ExpRow2(k), 15)))
  {
    match k
    case 0 => assert k == 0;
    case 1 => assert k == 1;
    case 2 => assert k == 2;
    case _ => assert k == 3;
  }

  lemma ExpRow2Quarter1(k: bv8)
    requires 4 <= k < 8
    ensures Doubling(ExpRow2(k)) && (k < 15 ==> Entry(ExpRow2(k + 1), 0) == Xtime(Entry(ExpRow2(k), 15)))
  {
    match k
    case 4 => assert k == 4;
    case 5 => assert k == 5;
    case 6 => assert k == 6;
    case _ => assert k == 7;
  }

  lemma ExpRow2Quarter2(k: bv8)
    requires 8 <= k < 12
    ensures Doubling(ExpRow2(k)) && (k < 15 ==> Entry(ExpRow2(k + 1), 0) == Xtime(Entry(ExpRow2(k), 15)))
  {
    match k
    case 8 => assert k == 8;
    case 9 => assert k == 9;
    case 10 => assert k == 10;
    case _ => assert k == 11;
  }

  lemma ExpRow2Quarter3(k: bv8)
    requires 12 <= k <= 15
    ensures Doubling(ExpRow2(k)) && (k < 15 ==> Entry(ExpRow2(k + 1), 0) == Xtime(Entry(ExpRow2(k), 15)))
  {
    match k
    case 12 => assert k == 12;
    case 13 => assert k == 13;
    case 14 => assert k == 14;
    case _ => assert k == 15;
  }

  lemma ExpPage2Step(i: bv8)
    requires i != 255
    ensures ExpPage2(i + 1) == Xtime(ExpPage2(i))
  {
    hide ExpRow2, Doubling, Entry, Xtime;
    NextIndex(i);
    match i >> 6 {
      case 0 => ExpRow2Quarter0(i >> 4);
      case 1 => ExpRow2Quarter1(i >> 4);
      case 2 => ExpRow2Quarter2(i >> 4);
      case _ => ExpRow2Quarter3(i >> 4);
    }
    EntryLow(ExpRow2(i >> 4), i);
    EntryLow(ExpRow2((i + 1) >> 4), i + 1);
    if i & 15 < 15 {
      DoublingAt(ExpRow2(i >> 4), i & 15);
    }
  }

  lemma LogThenExpQuarter0(a: bv8)
    requires a >> 6 == 0 && a != 0
    ensures ExpPage0(LogTable(a)) == a && LogTable(a) != 255
  {
  }

  lemma LogThenExpQuarter1(a: bv8)
    requires a >> 6 == 1 && a != 0
    ensures ExpPage0(LogTable(a)) == a && LogTable(a) != 255
  {
  }

  lemma LogThenExpQuarter2(a: bv8)
    requires a >> 6 == 2 && a != 0
    ensures ExpPage0(LogTable(a)) == a && LogTable(a) != 255
  {
  }

  lemma LogThenExpQuarter3(a: bv8)
    requires a >> 6 == 3 && a != 0
    ensures ExpPage0(LogTable(a)) == a && LogTable(a) != 255
  {
  }

  lemma LogThenExp(a: bv8)
    requires a != 0
    ensures ExpPage0(LogTable(a)) == a && LogTable(a) != 255
  {
    hide ExpPage0, LogTable;
    match a >> 6
    case 0 => LogThenExpQuarter0(a);
    case 1 => LogThenExpQuarter1(a);
    case 2 => LogThenExpQuarter2(a);
    case _ => LogThenExpQuarter3(a);
  }

  lemma ExpThenLogQuarter0(i: bv8)
    requires i >> 6 == 0 && i != 255
    ensures LogTable(ExpPage0(i)) == i
  {
  }

  lemma ExpThenLogQuarter1(i: bv8)
    requires i >> 6 == 1 && i != 255
    ensures LogTable(ExpPage0(i)) == i
  {
  }

  lemma ExpThenLogQuarter2(i: bv8)
    requires i >> 6 == 2 && i != 255
    ensures LogTable(ExpPage0(i)) == i
  {
  }

  lemma ExpThenLogQuarter3(i: bv8)
    requires i >> 6 == 3 && i != 255
    ensures LogTable(ExpPage0(i)) == i
  {
  }

  lemma ExpThenLog(i: bv8)
    requires i != 255
    ensures LogTable(ExpPage0(i)) == i
  {
    hide ExpPage0, LogTable;
    match i >> 6
    case 0 => ExpThenLogQuarter0(i);
    case 1 => ExpThenLogQuarter1(i);
    case 2 => ExpThenLogQuarter2(i);
    case _ => ExpThenLogQuarter3(i);
  }

  /** Four bytes in a word, the first one on top. */
  function Bytes4(a: bv8, b: bv8, c: bv8, d: bv8): bv32 {
    ((a as bv32) << 24) | ((b as bv32) << 16) | ((c as bv32) << 8) | (d as bv32)
  }

  /** i*x^4 modulo the generator, in shifts of i. */
  function RemShifts(i: bv8): bv32 {
    var x1 := Xtime(i);
    var x2 := Xtime(x1);
    var x3 := Xtime(x2);
    var x4 := Xtime(x3);
    var x5 := Xtime(x4);
    var x6 := Xtime(x5);
    Bytes4(Add(Add(i, x1), Add(x2, x3)), Add(Add(x1, x2), Add(x4, x5)), Add(Add(x3, x4), Add(x5, x6)), x6)
  }

  lemma RemTableQuarter0(i: bv8)
    requires i >> 6 == 0
    ensures RemQuarter0(i) == RemShifts(i)
  {
  }

  lemma RemTableQuarter1(i: bv8)
    requires i >> 6 == 1
    ensures RemQuarter1(i) == RemShifts(i)
  {
  }

  lemma RemTableQuarter2(i: bv8)
    requires i >> 6 == 2
    ensures RemQuarter2(i) == RemShifts(i)
  {
  }

  lemma RemTableQuarter3(i: bv8)
    requires i >> 6 == 3
    ensures RemQuarter3(i) == RemShifts(i)
  {
  }

  lemma RemTableIsShifts(i: bv8)
    ensures RemTable(i) == RemShifts(i)
  {
    hide RemQuarter0, RemQuarter1, RemQuarter2, RemQuarter3, RemShifts;
    match i >> 6
    case 0 => RemTableQuarter0(i);
    case 1 => RemTableQuarter1(i);
    case 2 => RemTableQuarter2(i);
    case _ => RemTableQuarter3(i);
  }
}
