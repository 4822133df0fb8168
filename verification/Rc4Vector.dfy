/** A published vector of the cipher: the 40-bit key of section 2 of RFC 6229. */
module Rc4Vector {
  import opened Words
  import opened Rc4

  const KEY: Bytes := [1, 2, 3, 4, 5]

  /** One step of the key schedule, from index `right` to index `next`. */
  lemma Moved(s: State, left: nat, right: nat, next: nat) returns (t: State)
    requires left < 256 && next == (right + s[left] as int + left % 5 + 1) % 256
    ensures Schedule(s, KEY, left, right) == Schedule(t, KEY, left + 1, next)
    ensures t[left] == s[next] && t[next] == s[left]
    ensures forall c :: 0 <= c < 256 && c != left && c != next ==> t[c] == s[c]
  {
    hide Swapped, KeyIndex;
    KeyByte(s, left, right);
    SwappedCells(s, left, next);
    t := Swapped(s, left, next);
  }

  lemma SwappedCells(s: State, i: nat, j: nat)
    requires i < 256 && j < 256
    ensures Swapped(s, i, j)[i] == s[j] && Swapped(s, i, j)[j] == s[i]
    ensures forall c :: 0 <= c < 256 && c != i && c != j ==> Swapped(s, i, j)[c] == s[c]
  {}

  lemma KeyByte(s: State, left: nat, right: nat)
    requires left < 256
    ensures KeyIndex(s, KEY, left, right) == (right + s[left] as int + left % 5 + 1) % 256
  {
    var i := left % 5;
    assert i == 0 || i == 1 || i == 2 || i == 3 || i == 4;
  }

  lemma Steps0(s: State) returns (t: State)
    requires s[0] == 0 && s[2] == 2 && s[3] == 3 && s[4] == 4 && s[5] == 5 && s[6] == 6 && s[7] == 7 && s[8] == 8 &&
    s[21] == 21 && s[27] == 27 && s[35] == 35
    ensures Schedule(s, KEY, 0, 0) == Schedule(t, KEY, 8, 45)
    ensures t[1] == 3 && t[2] == 8 && t[4] == 21 && t[5] == 27 && t[6] == 35 && t[8] == 2 && t[12] == 0 && t[21] == 4
    && t[27] == 5 && t[35] == 6 && t[45] == 7
    ensures forall c :: (0 <= c < 256 && c != 0 && c != 1 && c != 2 && c != 3 && c != 4 && c != 5 && c != 6 && c != 7
                         && c != 8 && c != 12 && c != 21 && c != 27 && c != 35 && c != 45) ==> t[c] == s[c]
  {
    hide *;
    t := s;
    t := Moved(t, 0, 0, 1);
    t := Moved(t, 1, 1, 3);
    t := Moved(t, 2, 3, 8);
    t := Moved(t, 3, 8, 12);
    t := Moved(t, 4, 12, 21);
    t := Moved(t, 5, 21, 27);
    t := Moved(t, 6, 27, 35);
    t := Moved(t, 7, 35, 45);
  }

  lemma Steps8(s: State) returns (t: State)
    requires s[8] == 2 && s[9] == 9 && s[10] == 10 && s[11] == 11 && s[12] == 0 && s[13] == 13 && s[14] == 14 &&
    s[15] == 15 && s[89] == 89
    ensures Schedule(s, KEY, 8, 45) == Schedule(t, KEY, 16, 144)
    ensures t[11] == 89 && t[65] == 9 && t[76] == 10 && t[89] == 11 && t[92] == 0 && t[128] == 14 && t[144] == 15
    ensures forall c :: (0 <= c < 256 && c != 8 && c != 9 && c != 10 && c != 11 && c != 12 && c != 13 && c != 14 && c
                         != 15 && c != 51 && c != 65 && c != 76 && c != 89 && c != 92 && c != 109 && c != 128 && c !=
                         144) ==> t[c] == s[c]
  {
    hide *;
    t := s;
    t := Moved(t, 8, 45, 51);
    t := Moved(t, 9, 51, 65);
    t := Moved(t, 10, 65, 76);
    t := Moved(t, 11, 76, 89);
    t := Moved(t, 12, 89, 92);
    t := Moved(t, 13, 92, 109);
    t := Moved(t, 14, 109, 128);
    t := Moved(t, 15, 128, 144);
  }

  lemma Steps16(s: State) returns (t: State)
    requires s[16] == 16 && s[17] == 17 && s[18] == 18 && s[19] == 19 && s[20] == 20 && s[21] == 4 && s[22] == 22 &&
    s[23] == 23
    ensures Schedule(s, KEY, 16, 144) == Schedule(t, KEY, 24, 51)
    ensures t[24] == 22 && t[51] == 23 && t[162] == 16 && t[182] == 17 && t[204] == 18 && t[249] == 20 && t[255] == 4
    ensures forall c :: (0 <= c < 256 && c != 16 && c != 17 && c != 18 && c != 19 && c != 20 && c != 21 && c != 22 &&
                         c != 23 && c != 24 && c != 51 && c != 162 && c != 182 && c != 204 && c != 228 && c != 249 &&
                         c != 255) ==> t[c] == s[c]
  {
    hide *;
    t := s;
    t := Moved(t, 16, 144, 162);
    t := Moved(t, 17, 162, 182);
    t := Moved(t, 18, 182, 204);
    t := Moved(t, 19, 204, 228);
    t := Moved(t, 20, 228, 249);
    t := Moved(t, 21, 249, 255);
    t := Moved(t, 22, 255, 24);
    t := Moved(t, 23, 24, 51);
  }

  lemma Steps24(s: State) returns (t: State)
    requires s[24] == 22 && s[25] == 25 && s[26] == 26 && s[27] == 5 && s[28] == 28 && s[29] == 29 && s[30] == 30 &&
    s[31] == 31
    ensures Schedule(s, KEY, 24, 51) == Schedule(t, KEY, 32, 14)
    ensures t[14] == 31 && t[104] == 25 && t[132] == 26 && t[140] == 5 && t[172] == 28 && t[206] == 29
    ensures forall c :: (0 <= c < 256 && c != 14 && c != 24 && c != 25 && c != 26 && c != 27 && c != 28 && c != 29 &&
                         c != 30 && c != 31 && c != 78 && c != 104 && c != 132 && c != 140 && c != 172 && c != 206 &&
                         c != 237) ==> t[c] == s[c]
  {
    hide *;
    t := s;
    t := Moved(t, 24, 51, 78);
    t := Moved(t, 25, 78, 104);
    t := Moved(t, 26, 104, 132);
    t := Moved(t, 27, 132, 140);
    t := Moved(t, 28, 140, 172);
    t := Moved(t, 29, 172, 206);
    t := Moved(t, 30, 206, 237);
    t := Moved(t, 31, 237, 14);
  }

  lemma Steps32(s: State) returns (t: State)
    requires s[32] == 32 && s[33] == 33 && s[34] == 34 && s[35] == 6 && s[36] == 36 && s[37] == 37 && s[38] == 38 &&
    s[39] == 39 && s[132] == 26
    ensures Schedule(s, KEY, 32, 14) == Schedule(t, KEY, 40, 40)
    ensures t[35] == 26 && t[40] == 39 && t[49] == 32 && t[86] == 33 && t[132] == 6 && t[210] == 37 && t[252] == 38
    ensures forall c :: (0 <= c < 256 && c != 32 && c != 33 && c != 34 && c != 35 && c != 36 && c != 37 && c != 38 &&
                         c != 39 && c != 40 && c != 49 && c != 86 && c != 125 && c != 132 && c != 170 && c != 210 &&
                         c != 252) ==> t[c] == s[c]
  {
    hide *;
    t := s;
    t := Moved(t, 32, 14, 49);
    t := Moved(t, 33, 49, 86);
    t := Moved(t, 34, 86, 125);
    t := Moved(t, 35, 125, 132);
    t := Moved(t, 36, 132, 170);
    t := Moved(t, 37, 170, 210);
    t := Moved(t, 38, 210, 252);
    t := Moved(t, 39, 252, 40);
  }

  lemma Steps40(s: State) returns (t: State)
    requires s[40] == 39 && s[41] == 41 && s[42] == 42 && s[43] == 43 && s[44] == 44 && s[45] == 7 && s[46] == 46 &&
    s[47] == 47 && s[64] == 64
    ensures Schedule(s, KEY, 40, 40) == Schedule(t, KEY, 48, 114)
    ensures t[46] == 64 && t[64] == 46 && t[80] == 39 && t[114] == 47 && t[123] == 41 && t[168] == 42
    ensures forall c :: (0 <= c < 256 && c != 8 && c != 16 && c != 40 && c != 41 && c != 42 && c != 43 && c != 44 &&
                         c != 45 && c != 46 && c != 47 && c != 64 && c != 80 && c != 114 && c != 123 && c != 168 && c
                         != 215) ==> t[c] == s[c]
  {
    hide *;
    t := s;
    t := Moved(t, 40, 40, 80);
    t := Moved(t, 41, 80, 123);
    t := Moved(t, 42, 123, 168);
    t := Moved(t, 43, 168, 215);
    t := Moved(t, 44, 215, 8);
    t := Moved(t, 45, 8, 16);
    t := Moved(t, 46, 16, 64);
    t := Moved(t, 47, 64, 114);
  }

  lemma Steps48(s: State) returns (t: State)
    requires s[48] == 48 && s[49] == 32 && s[50] == 50 && s[51] == 23 && s[52] == 52 && s[53] == 53 && s[54] == 54 &&
    s[55] == 55
    ensures Schedule(s, KEY, 48, 114) == Schedule(t, KEY, 56, 250)
    ensures t[78] == 52 && t[135] == 53 && t[166] == 48 && t[194] == 54 && t[250] == 55 && t[254] == 50
    ensures forall c :: (0 <= c < 256 && c != 23 && c != 48 && c != 49 && c != 50 && c != 51 && c != 52 && c != 53 &&
                         c != 54 && c != 55 && c != 78 && c != 135 && c != 166 && c != 194 && c != 203 && c != 250 &&
                         c != 254) ==> t[c] == s[c]
  {
    hide *;
    t := s;
    t := Moved(t, 48, 114, 166);
    t := Moved(t, 49, 166, 203);
    t := Moved(t, 50, 203, 254);
    t := Moved(t, 51, 254, 23);
    t := Moved(t, 52, 23, 78);
    t := Moved(t, 53, 78, 135);
    t := Moved(t, 54, 135, 194);
    t := Moved(t, 55, 194, 250);
  }

  lemma Steps56(s: State) returns (t: State)
    requires s[56] == 56 && s[57] == 57 && s[58] == 58 && s[59] == 59 && s[60] == 60 && s[61] == 61 && s[62] == 62 &&
    s[63] == 63
    ensures Schedule(s, KEY, 56, 250) == Schedule(t, KEY, 64, 238)
    ensures t[106] == 61 && t[112] == 57 && t[171] == 62 && t[174] == 58
    ensures forall c :: (0 <= c < 256 && c != 43 && c != 52 && c != 56 && c != 57 && c != 58 && c != 59 && c != 60 &&
                         c != 61 && c != 62 && c != 63 && c != 106 && c != 112 && c != 171 && c != 174 && c != 238)
                         ==> t[c] == s[c]
  {
    hide *;
    t := s;
    t := Moved(t, 56, 250, 52);
    t := Moved(t, 57, 52, 112);
    t := Moved(t, 58, 112, 174);
    t := Moved(t, 59, 174, 238);
    t := Moved(t, 60, 238, 43);
    t := Moved(t, 61, 43, 106);
    t := Moved(t, 62, 106, 171);
    t := Moved(t, 63, 171, 238);
  }

  lemma Steps64(s: State) returns (t: State)
    requires s[64] == 46 && s[65] == 9 && s[66] == 66 && s[67] == 67 && s[68] == 68 && s[69] == 69 && s[70] == 70
    ensures Schedule(s, KEY, 64, 238) == Schedule(t, KEY, 72, 213)
    ensures t[111] == 66 && t[181] == 67 && t[253] == 68
    ensures forall c :: (0 <= c < 256 && c != 33 && c != 43 && c != 64 && c != 65 && c != 66 && c != 67 && c != 68 &&
                         c != 69 && c != 70 && c != 71 && c != 111 && c != 142 && c != 181 && c != 213 && c != 253)
                         ==> t[c] == s[c]
  {
    hide *;
    t := s;
    t := Moved(t, 64, 238, 33);
    t := Moved(t, 65, 33, 43);
    t := Moved(t, 66, 43, 111);
    t := Moved(t, 67, 111, 181);
    t := Moved(t, 68, 181, 253);
    t := Moved(t, 69, 253, 71);
    t := Moved(t, 70, 71, 142);
    t := Moved(t, 71, 142, 213);
  }

  lemma Steps72(s: State) returns (t: State)
    requires s[72] == 72 && s[73] == 73 && s[74] == 74 && s[75] == 75 && s[76] == 10 && s[77] == 77 && s[78] == 52 &&
    s[79] == 79 && s[240] == 240
    ensures Schedule(s, KEY, 72, 213) == Schedule(t, KEY, 80, 240)
    ensures t[79] == 240 && t[100] == 77 && t[109] == 73 && t[156] == 52
    ensures forall c :: (0 <= c < 256 && c != 8 && c != 20 && c != 32 && c != 72 && c != 73 && c != 74 && c != 75 &&
                         c != 76 && c != 77 && c != 78 && c != 79 && c != 100 && c != 109 && c != 156 && c != 188 &&
                         c != 240) ==> t[c] == s[c]
  {
    hide *;
    t := s;
    t := Moved(t, 72, 213, 32);
    t := Moved(t, 73, 32, 109);
    t := Moved(t, 74, 109, 188);
    t := Moved(t, 75, 188, 8);
    t := Moved(t, 76, 8, 20);
    t := Moved(t, 77, 20, 100);
    t := Moved(t, 78, 100, 156);
    t := Moved(t, 79, 156, 240);
  }

  lemma Steps80(s: State) returns (t: State)
    requires s[80] == 39 && s[81] == 81 && s[82] == 82 && s[83] == 83 && s[84] == 84 && s[85] == 85 && s[86] == 33 &&
    s[87] == 87 && s[112] == 57 && s[192] == 192
    ensures Schedule(s, KEY, 80, 240) == Schedule(t, KEY, 88, 67)
    ensures t[24] == 39 && t[82] == 192 && t[84] == 57 && t[107] == 81 && t[192] == 82 && t[198] == 85
    ensures forall c :: (0 <= c < 256 && c != 23 && c != 24 && c != 67 && c != 80 && c != 81 && c != 82 && c != 83 &&
                         c != 84 && c != 85 && c != 86 && c != 87 && c != 107 && c != 112 && c != 192 && c != 198 &&
                         c != 233) ==> t[c] == s[c]
  {
    hide *;
    t := s;
    t := Moved(t, 80, 240, 24);
    t := Moved(t, 81, 24, 107);
    t := Moved(t, 82, 107, 192);
    t := Moved(t, 83, 192, 23);
    t := Moved(t, 84, 23, 112);
    t := Moved(t, 85, 112, 198);
    t := Moved(t, 86, 198, 233);
    t := Moved(t, 87, 233, 67);
  }

  lemma Steps88(s: State) returns (t: State)
    requires s[46] == 64 && s[88] == 88 && s[89] == 11 && s[90] == 90 && s[91] == 91 && s[92] == 0 && s[93] == 93 &&
    s[94] == 94 && s[95] == 95 && s[106] == 61
    ensures Schedule(s, KEY, 88, 67) == Schedule(t, KEY, 96, 142)
    ensures t[92] == 61 && t[94] == 64 && t[103] == 91 && t[106] == 0 && t[142] == 95 && t[175] == 11
    ensures forall c :: (0 <= c < 256 && c != 10 && c != 46 && c != 88 && c != 89 && c != 90 && c != 91 && c != 92 &&
                         c != 93 && c != 94 && c != 95 && c != 103 && c != 106 && c != 142 && c != 159 && c != 175 &&
                         c != 203) ==> t[c] == s[c]
  {
    hide *;
    t := s;
    t := Moved(t, 88, 67, 159);
    t := Moved(t, 89, 159, 175);
    t := Moved(t, 90, 175, 10);
    t := Moved(t, 91, 10, 103);
    t := Moved(t, 92, 103, 106);
    t := Moved(t, 93, 106, 203);
    t := Moved(t, 94, 203, 46);
    t := Moved(t, 95, 46, 142);
  }

  lemma Steps96(s: State) returns (t: State)
    requires s[84] == 57 && s[96] == 96 && s[97] == 97 && s[98] == 98 && s[99] == 99 && s[100] == 77 && s[101] == 101
    && s[102] == 102 && s[103] == 91
    ensures Schedule(s, KEY, 96, 142) == Schedule(t, KEY, 104, 159)
    ensures t[34] == 99 && t[97] == 57 && t[112] == 77 && t[159] == 91 && t[186] == 98 && t[215] == 101 && t[240] ==
    96
    ensures forall c :: (0 <= c < 256 && c != 34 && c != 64 && c != 84 && c != 96 && c != 97 && c != 98 && c != 99 &&
                         c != 100 && c != 101 && c != 102 && c != 103 && c != 112 && c != 159 && c != 186 && c != 215
                         && c != 240) ==> t[c] == s[c]
  {
    hide *;
    t := s;
    t := Moved(t, 96, 142, 240);
    t := Moved(t, 97, 240, 84);
    t := Moved(t, 98, 84, 186);
    t := Moved(t, 99, 186, 34);
    t := Moved(t, 100, 34, 112);
    t := Moved(t, 101, 112, 215);
    t := Moved(t, 102, 215, 64);
    t := Moved(t, 103, 64, 159);
  }

  lemma Steps104(s: State) returns (t: State)
    requires s[104] == 25 && s[105] == 105 && s[106] == 0 && s[107] == 81 && s[108] == 108 && s[109] == 73 && s[110]
    == 110 && s[111] == 66
    ensures Schedule(s, KEY, 104, 159) == Schedule(t, KEY, 112, 238)
    ensures t[125] == 81 && t[170] == 110 && t[189] == 25 && t[237] == 108 && t[238] == 66
    ensures forall c :: (0 <= c < 256 && c != 39 && c != 41 && c != 59 && c != 104 && c != 105 && c != 106 && c !=
                         107 && c != 108 && c != 109 && c != 110 && c != 111 && c != 125 && c != 170 && c != 189 && c
                         != 237 && c != 238) ==> t[c] == s[c]
  {
    hide *;
    t := s;
    t := Moved(t, 104, 159, 189);
    t := Moved(t, 105, 189, 39);
    t := Moved(t, 106, 39, 41);
    t := Moved(t, 107, 41, 125);
    t := Moved(t, 108, 125, 237);
    t := Moved(t, 109, 237, 59);
    t := Moved(t, 110, 59, 170);
    t := Moved(t, 111, 170, 238);
  }

  lemma Steps112(s: State) returns (t: State)
    requires s[112] == 77 && s[113] == 113 && s[114] == 47 && s[115] == 115 && s[116] == 116 && s[117] == 117 &&
    s[118] == 118 && s[119] == 119
    ensures Schedule(s, KEY, 112, 238) == Schedule(t, KEY, 120, 63)
    ensures t[179] == 113 && t[195] == 118 && t[209] == 116 && t[231] == 47
    ensures forall c :: (0 <= c < 256 && c != 62 && c != 63 && c != 73 && c != 91 && c != 112 && c != 113 && c != 114
                         && c != 115 && c != 116 && c != 117 && c != 118 && c != 119 && c != 179 && c != 195 && c !=
                         209 && c != 231) ==> t[c] == s[c]
  {
    hide *;
    t := s;
    t := Moved(t, 112, 238, 62);
    t := Moved(t, 113, 62, 179);
    t := Moved(t, 114, 179, 231);
    t := Moved(t, 115, 231, 91);
    t := Moved(t, 116, 91, 209);
    t := Moved(t, 117, 209, 73);
    t := Moved(t, 118, 73, 195);
    t := Moved(t, 119, 195, 63);
  }

  lemma Steps120(s: State) returns (t: State)
    requires s[94] == 64 && s[120] == 120 && s[121] == 121 && s[122] == 122 && s[123] == 41 && s[124] == 124 &&
    s[125] == 81 && s[126] == 126 && s[127] == 127 && s[178] == 178
    ensures Schedule(s, KEY, 120, 63) == Schedule(t, KEY, 128, 178)
    ensures t[124] == 64 && t[127] == 178 && t[176] == 81 && t[184] == 120 && t[221] == 41
    ensures forall c :: (0 <= c < 256 && c != 48 && c != 51 && c != 94 && c != 120 && c != 121 && c != 122 && c !=
                         123 && c != 124 && c != 125 && c != 126 && c != 127 && c != 176 && c != 178 && c != 184 && c
                         != 221) ==> t[c] == s[c]
  {
    hide *;
    t := s;
    t := Moved(t, 120, 63, 184);
    t := Moved(t, 121, 184, 51);
    t := Moved(t, 122, 51, 176);
    t := Moved(t, 123, 176, 221);
    t := Moved(t, 124, 221, 94);
    t := Moved(t, 125, 94, 176);
    t := Moved(t, 126, 176, 48);
    t := Moved(t, 127, 48, 178);
  }

  lemma Steps128(s: State) returns (t: State)
    requires s[82] == 192 && s[128] == 14 && s[129] == 129 && s[130] == 130 && s[131] == 131 && s[132] == 6 && s[133]
    == 133 && s[134] == 134 && s[135] == 53
    ensures Schedule(s, KEY, 128, 178) == Schedule(t, KEY, 136, 165)
    ensures t[131] == 192 && t[165] == 53 && t[196] == 14
    ensures forall c :: (0 <= c < 256 && c != 74 && c != 82 && c != 91 && c != 111 && c != 128 && c != 129 && c !=
                         130 && c != 131 && c != 132 && c != 133 && c != 134 && c != 135 && c != 165 && c != 196 && c
                         != 205 && c != 228) ==> t[c] == s[c]
  {
    hide *;
    t := s;
    t := Moved(t, 128, 178, 196);
    t := Moved(t, 129, 196, 74);
    t := Moved(t, 130, 74, 205);
    t := Moved(t, 131, 205, 82);
    t := Moved(t, 132, 82, 91);
    t := Moved(t, 133, 91, 228);
    t := Moved(t, 134, 228, 111);
    t := Moved(t, 135, 111, 165);
  }

  lemma Steps136(s: State) returns (t: State)
    requires s[136] == 136 && s[137] == 137 && s[138] == 138 && s[139] == 139 && s[140] == 5 && s[141] == 141 &&
    s[142] == 95 && s[143] == 143
    ensures Schedule(s, KEY, 136, 165) == Schedule(t, KEY, 144, 99)
    ensures t[187] == 137 && t[223] == 5
    ensures forall c :: (0 <= c < 256 && c != 47 && c != 73 && c != 99 && c != 110 && c != 136 && c != 137 && c !=
                         138 && c != 139 && c != 140 && c != 141 && c != 142 && c != 143 && c != 187 && c != 208 && c
                         != 217 && c != 223) ==> t[c] == s[c]
  {
    hide *;
    t := s;
    t := Moved(t, 136, 165, 47);
    t := Moved(t, 137, 47, 187);
    t := Moved(t, 138, 187, 73);
    t := Moved(t, 139, 73, 217);
    t := Moved(t, 140, 217, 223);
    t := Moved(t, 141, 223, 110);
    t := Moved(t, 142, 110, 208);
    t := Moved(t, 143, 208, 99);
  }

  lemma Steps144(s: State) returns (t: State)
    requires s[144] == 15 && s[145] == 145 && s[146] == 146 && s[147] == 147 && s[148] == 148 && s[149] == 149 &&
    s[150] == 150 && s[151] == 151 && s[252] == 38
    ensures Schedule(s, KEY, 144, 99) == Schedule(t, KEY, 152, 149)
    ensures t[150] == 38 && t[157] == 146 && t[203] == 148 && t[252] == 150
    ensures forall c :: (0 <= c < 256 && c != 9 && c != 51 && c != 101 && c != 119 && c != 144 && c != 145 && c !=
                         146 && c != 147 && c != 148 && c != 149 && c != 150 && c != 151 && c != 157 && c != 203 && c
                         != 252) ==> t[c] == s[c]
  {
    hide *;
    t := s;
    t := Moved(t, 144, 99, 119);
    t := Moved(t, 145, 119, 9);
    t := Moved(t, 146, 9, 157);
    t := Moved(t, 147, 157, 51);
    t := Moved(t, 148, 51, 203);
    t := Moved(t, 149, 203, 101);
    t := Moved(t, 150, 101, 252);
    t := Moved(t, 151, 252, 149);
  }

  lemma Steps152(s: State) returns (t: State)
    requires s[152] == 152 && s[153] == 153 && s[154] == 154 && s[155] == 155 && s[156] == 52 && s[157] == 146 &&
    s[158] == 158 && s[159] == 91
    ensures Schedule(s, KEY, 152, 149) == Schedule(t, KEY, 160, 213)
    ensures t[62] == 52 && t[205] == 153 && t[213] == 91
    ensures forall c :: (0 <= c < 256 && c != 8 && c != 48 && c != 62 && c != 108 && c != 117 && c != 152 && c != 153
                         && c != 154 && c != 155 && c != 156 && c != 157 && c != 158 && c != 159 && c != 205 && c !=
                         211 && c != 213) ==> t[c] == s[c]
  {
    hide *;
    t := s;
    t := Moved(t, 152, 149, 48);
    t := Moved(t, 153, 48, 205);
    t := Moved(t, 154, 205, 108);
    t := Moved(t, 155, 108, 8);
    t := Moved(t, 156, 8, 62);
    t := Moved(t, 157, 62, 211);
    t := Moved(t, 158, 211, 117);
    t := Moved(t, 159, 117, 213);
  }

  lemma Steps160(s: State) returns (t: State)
    requires s[124] == 64 && s[160] == 160 && s[161] == 161 && s[162] == 16 && s[163] == 163 && s[164] == 164 &&
    s[165] == 53 && s[166] == 48 && s[167] == 167
    ensures Schedule(s, KEY, 160, 213) == Schedule(t, KEY, 168, 142)
    ensures t[164] == 64 && t[178] == 53 && t[211] == 163
    ensures forall c :: (0 <= c < 256 && c != 25 && c != 44 && c != 118 && c != 124 && c != 142 && c != 160 && c !=
                         161 && c != 162 && c != 163 && c != 164 && c != 165 && c != 166 && c != 167 && c != 178 && c
                         != 211 && c != 228) ==> t[c] == s[c]
  {
    hide *;
    t := s;
    t := Moved(t, 160, 213, 118);
    t := Moved(t, 161, 118, 25);
    t := Moved(t, 162, 25, 44);
    t := Moved(t, 163, 44, 211);
    t := Moved(t, 164, 211, 124);
    t := Moved(t, 165, 124, 178);
    t := Moved(t, 166, 178, 228);
    t := Moved(t, 167, 228, 142);
  }

  lemma Steps168(s: State) returns (t: State)
    requires s[168] == 42 && s[169] == 169 && s[170] == 110 && s[171] == 62 && s[172] == 28 && s[173] == 173 &&
    s[174] == 58 && s[175] == 11
    ensures Schedule(s, KEY, 168, 142) == Schedule(t, KEY, 176, 52)
    ensures t[188] == 42 && t[217] == 110 && t[233] == 173
    ensures forall c :: (0 <= c < 256 && c != 25 && c != 40 && c != 52 && c != 56 && c != 106 && c != 168 && c != 169
                         && c != 170 && c != 171 && c != 172 && c != 173 && c != 174 && c != 175 && c != 188 && c !=
                         217 && c != 233) ==> t[c] == s[c]
  {
    hide *;
    t := s;
    t := Moved(t, 168, 142, 188);
    t := Moved(t, 169, 188, 106);
    t := Moved(t, 170, 106, 217);
    t := Moved(t, 171, 217, 25);
    t := Moved(t, 172, 25, 56);
    t := Moved(t, 173, 56, 233);
    t := Moved(t, 174, 233, 40);
    t := Moved(t, 175, 40, 52);
  }

  lemma Steps176(s: State) returns (t: State)
    requires s[176] == 81 && s[177] == 177 && s[178] == 53 && s[179] == 113 && s[180] == 180 && s[181] == 67 &&
    s[182] == 17 && s[183] == 183
    ensures Schedule(s, KEY, 176, 52) == Schedule(t, KEY, 184, 179)
    ensures t[228] == 67 && t[248] == 17
    ensures forall c :: (0 <= c < 256 && c != 59 && c != 116 && c != 135 && c != 159 && c != 176 && c != 177 && c !=
                         178 && c != 179 && c != 180 && c != 181 && c != 182 && c != 183 && c != 228 && c != 234 && c
                         != 248) ==> t[c] == s[c]
  {
    hide *;
    t := s;
    t := Moved(t, 176, 52, 135);
    t := Moved(t, 177, 135, 59);
    t := Moved(t, 178, 59, 116);
    t := Moved(t, 179, 116, 234);
    t := Moved(t, 180, 234, 159);
    t := Moved(t, 181, 159, 228);
    t := Moved(t, 182, 228, 248);
    t := Moved(t, 183, 248, 179);
  }

  lemma Steps184(s: State) returns (t: State)
    requires s[184] == 120 && s[185] == 185 && s[186] == 98 && s[187] == 137 && s[188] == 42 && s[189] == 25 &&
    s[190] == 190 && s[191] == 191
    ensures Schedule(s, KEY, 184, 179) == Schedule(t, KEY, 192, 166)
    ensures t[218] == 137 && t[229] == 190 && t[234] == 185
    ensures forall c :: (0 <= c < 256 && c != 8 && c != 38 && c != 48 && c != 78 && c != 166 && c != 184 && c != 185
                         && c != 186 && c != 187 && c != 188 && c != 189 && c != 190 && c != 191 && c != 218 && c !=
                         229 && c != 234) ==> t[c] == s[c]
  {
    hide *;
    t := s;
    t := Moved(t, 184, 179, 48);
    t := Moved(t, 185, 48, 234);
    t := Moved(t, 186, 234, 78);
    t := Moved(t, 187, 78, 218);
    t := Moved(t, 188, 218, 8);
    t := Moved(t, 189, 8, 38);
    t := Moved(t, 190, 38, 229);
    t := Moved(t, 191, 229, 166);
  }

  lemma Steps192(s: State) returns (t: State)
    requires s[192] == 82 && s[193] == 193 && s[194] == 54 && s[195] == 118 && s[196] == 14 && s[197] == 197 &&
    s[198] == 85 && s[199] == 199
    ensures Schedule(s, KEY, 192, 166) == Schedule(t, KEY, 200, 111)
    ensures t[251] == 54
    ensures forall c :: (0 <= c < 256 && c != 74 && c != 111 && c != 114 && c != 130 && c != 163 && c != 192 && c !=
                         193 && c != 194 && c != 195 && c != 196 && c != 197 && c != 198 && c != 199 && c != 251) ==> t[c] == s[c]
  {
    hide *;
    t := s;
    t := Moved(t, 192, 166, 251);
    t := Moved(t, 193, 251, 192);
    t := Moved(t, 194, 192, 251);
    t := Moved(t, 195, 251, 114);
    t := Moved(t, 196, 114, 130);
    t := Moved(t, 197, 130, 74);
    t := Moved(t, 198, 74, 163);
    t := Moved(t, 199, 163, 111);
  }

  lemma Steps200(s: State) returns (t: State)
    requires s[127] == 178 && s[200] == 200 && s[201] == 201 && s[202] == 202 && s[203] == 148 && s[204] == 18 &&
    s[205] == 153 && s[206] == 29 && s[207] == 207
    ensures Schedule(s, KEY, 200, 111) == Schedule(t, KEY, 208, 10)
    ensures t[3] == 201 && t[204] == 178 && t[208] == 202
    ensures forall c :: (0 <= c < 256 && c != 3 && c != 10 && c != 25 && c != 56 && c != 104 && c != 127 && c != 200
                         && c != 201 && c != 202 && c != 203 && c != 204 && c != 205 && c != 206 && c != 207 && c !=
                         208) ==> t[c] == s[c]
  {
    hide *;
    t := s;
    t := Moved(t, 200, 111, 56);
    t := Moved(t, 201, 56, 3);
    t := Moved(t, 202, 3, 208);
    t := Moved(t, 203, 208, 104);
    t := Moved(t, 204, 104, 127);
    t := Moved(t, 205, 127, 25);
    t := Moved(t, 206, 25, 56);
    t := Moved(t, 207, 56, 10);
  }

  lemma Steps208(s: State) returns (t: State)
    requires s[208] == 202 && s[209] == 116 && s[210] == 37 && s[211] == 163 && s[212] == 212 && s[213] == 91 &&
    s[214] == 214 && s[215] == 101
    ensures Schedule(s, KEY, 208, 10) == Schedule(t, KEY, 216, 147)
    ensures t[216] == 202 && t[243] == 212
    ensures forall c :: (0 <= c < 256 && c != 28 && c != 45 && c != 81 && c != 82 && c != 119 && c != 147 && c != 208
                         && c != 209 && c != 210 && c != 211 && c != 212 && c != 213 && c != 214 && c != 215 && c !=
                         216 && c != 243) ==> t[c] == s[c]
  {
    hide *;
    t := s;
    t := Moved(t, 208, 10, 216);
    t := Moved(t, 209, 216, 81);
    t := Moved(t, 210, 81, 119);
    t := Moved(t, 211, 119, 28);
    t := Moved(t, 212, 28, 243);
    t := Moved(t, 213, 243, 82);
    t := Moved(t, 214, 82, 45);
    t := Moved(t, 215, 45, 147);
  }

  lemma Steps216(s: State) returns (t: State)
    requires s[216] == 202 && s[217] == 110 && s[218] == 137 && s[219] == 219 && s[220] == 220 && s[221] == 41 &&
    s[222] == 222 && s[223] == 5
    ensures Schedule(s, KEY, 216, 147) == Schedule(t, KEY, 224, 47)
    ensures t[47] == 5
    ensures forall c :: (0 <= c < 256 && c != 26 && c != 38 && c != 47 && c != 61 && c != 69 && c != 93 && c != 95 &&
                         c != 208 && c != 216 && c != 217 && c != 218 && c != 219 && c != 220 && c != 221 && c != 222
                         && c != 223) ==> t[c] == s[c]
  {
    hide *;
    t := s;
    t := Moved(t, 216, 147, 95);
    t := Moved(t, 217, 95, 208);
    t := Moved(t, 218, 208, 93);
    t := Moved(t, 219, 93, 61);
    t := Moved(t, 220, 61, 26);
    t := Moved(t, 221, 26, 69);
    t := Moved(t, 222, 69, 38);
    t := Moved(t, 223, 38, 47);
  }

  lemma Steps224(s: State) returns (t: State)
    requires s[224] == 224 && s[225] == 225 && s[226] == 226 && s[227] == 227 && s[228] == 67 && s[229] == 190 &&
    s[230] == 230 && s[231] == 47
    ensures Schedule(s, KEY, 224, 47) == Schedule(t, KEY, 232, 226)
    ensures t[7] == 67 && t[246] == 225
    ensures forall c :: (0 <= c < 256 && c != 7 && c != 20 && c != 177 && c != 192 && c != 202 && c != 218 && c !=
                         224 && c != 225 && c != 226 && c != 227 && c != 228 && c != 229 && c != 230 && c != 231 && c
                         != 246) ==> t[c] == s[c]
  {
    hide *;
    t := s;
    t := Moved(t, 224, 47, 20);
    t := Moved(t, 225, 20, 246);
    t := Moved(t, 226, 246, 218);
    t := Moved(t, 227, 218, 192);
    t := Moved(t, 228, 192, 7);
    t := Moved(t, 229, 7, 202);
    t := Moved(t, 230, 202, 177);
    t := Moved(t, 231, 177, 226);
  }

  lemma Steps232(s: State) returns (t: State)
    requires s[232] == 232 && s[233] == 173 && s[234] == 185 && s[235] == 235 && s[236] == 236 && s[237] == 108 &&
    s[238] == 66 && s[239] == 239
    ensures Schedule(s, KEY, 232, 226) == Schedule(t, KEY, 240, 191)
    ensures forall c :: (0 <= c < 256 && c != 22 && c != 40 && c != 60 && c != 126 && c != 133 && c != 191 && c !=
                         203 && c != 205 && c != 232 && c != 233 && c != 234 && c != 235 && c != 236 && c != 237 && c
                         != 238 && c != 239) ==> t[c] == s[c]
  {
    hide *;
    t := s;
    t := Moved(t, 232, 226, 205);
    t := Moved(t, 233, 205, 126);
    t := Moved(t, 234, 126, 60);
    t := Moved(t, 235, 60, 40);
    t := Moved(t, 236, 40, 22);
    t := Moved(t, 237, 22, 133);
    t := Moved(t, 238, 133, 203);
    t := Moved(t, 239, 203, 191);
  }

  lemma Steps240(s: State) returns (t: State)
    requires s[240] == 96 && s[241] == 241 && s[242] == 242 && s[243] == 212 && s[244] == 244 && s[245] == 245 &&
    s[246] == 225 && s[247] == 247
    ensures Schedule(s, KEY, 240, 191) == Schedule(t, KEY, 248, 172)
    ensures t[8] == 242
    ensures forall c :: (0 <= c < 256 && c != 8 && c != 19 && c != 32 && c != 172 && c != 178 && c != 207 && c != 217
                         && c != 224 && c != 240 && c != 241 && c != 242 && c != 243 && c != 244 && c != 245 && c !=
                         246 && c != 247) ==> t[c] == s[c]
  {
    hide *;
    t := s;
    t := Moved(t, 240, 191, 32);
    t := Moved(t, 241, 32, 19);
    t := Moved(t, 242, 19, 8);
    t := Moved(t, 243, 8, 224);
    t := Moved(t, 244, 224, 217);
    t := Moved(t, 245, 217, 207);
    t := Moved(t, 246, 207, 178);
    t := Moved(t, 247, 178, 172);
  }

  lemma Steps248(s: State) returns (t: State)
    requires s[248] == 17 && s[249] == 20 && s[250] == 55 && s[251] == 54 && s[252] == 150 && s[253] == 68 && s[254]
    == 50 && s[255] == 4
    ensures Schedule(s, KEY, 248, 172) == Schedule(t, KEY, 256, 103)
    ensures forall c :: (0 <= c < 256 && c != 18 && c != 43 && c != 74 && c != 98 && c != 103 && c != 193 && c != 218
                         && c != 227 && c != 248 && c != 249 && c != 250 && c != 251 && c != 252 && c != 253 && c !=
                         254 && c != 255) ==> t[c] == s[c]
  {
    hide *;
    t := s;
    t := Moved(t, 248, 172, 193);
    t := Moved(t, 249, 193, 218);
    t := Moved(t, 250, 218, 18);
    t := Moved(t, 251, 18, 74);
    t := Moved(t, 252, 74, 227);
    t := Moved(t, 253, 227, 43);
    t := Moved(t, 254, 43, 98);
    t := Moved(t, 255, 98, 103);
  }
  lemma Outputs(s: State)
    requires s[1] == 3 && s[2] == 8 && s[3] == 201 && s[4] == 21 && s[5] == 27 && s[6] == 35 && s[7] == 67 && s[8] ==
    242 && s[11] == 89 && s[14] == 31 && s[24] == 39 && s[34] == 99 && s[35] == 26 && s[47] == 5 && s[62] == 52 &&
    s[79] == 240 && s[92] == 61 && s[97] == 57 && s[131] == 192 && s[150] == 38 && s[164] == 64 && s[204] == 178
    ensures KeyStream(Generator(0, 0, s), 8) == STREAM
  {
    hide KeyStream;
    var g := Generator(0, 0, s);
    g := Next(g, 1, 3, 204, 178, 8);
    g := Next(g, 2, 11, 97, 57, 7);
    g := Next(g, 3, 14, 34, 99, 6);
    g := Next(g, 4, 35, 47, 5, 5);
    g := Next(g, 5, 62, 79, 240, 4);
    g := Next(g, 6, 97, 92, 61, 3);
    g := Next(g, 7, 164, 131, 192, 2);
    g := Next(g, 8, 150, 24, 39, 1);
    NoStream(g);
  }

  lemma Scheduled() returns (s: State)
    ensures s[1] == 3 && s[2] == 8 && s[3] == 201 && s[4] == 21 && s[5] == 27 && s[6] == 35 && s[7] == 67 && s[8] ==
    242 && s[11] == 89 && s[14] == 31 && s[24] == 39 && s[34] == 99 && s[35] == 26 && s[47] == 5 && s[62] == 52 &&
    s[79] == 240 && s[92] == 61 && s[97] == 57 && s[131] == 192 && s[150] == 38 && s[164] == 64 && s[204] == 178
    ensures Schedule(Identity(), KEY, 0, 0) == s
  {
    hide Schedule;
    s := Identity();
    s := Steps0(s);
    s := Steps8(s);
    s := Steps16(s);
    s := Steps24(s);
    s := Steps32(s);
    s := Steps40(s);
    s := Steps48(s);
    s := Steps56(s);
    s := Steps64(s);
    s := Steps72(s);
    s := Steps80(s);
    s := Steps88(s);
    s := Steps96(s);
    s := Steps104(s);
    s := Steps112(s);
    s := Steps120(s);
    s := Steps128(s);
    s := Steps136(s);
    s := Steps144(s);
    s := Steps152(s);
    s := Steps160(s);
    s := Steps168(s);
    s := Steps176(s);
    s := Steps184(s);
    s := Steps192(s);
    s := Steps200(s);
    s := Steps208(s);
    s := Steps216(s);
    s := Steps224(s);
    s := Steps232(s);
    s := Steps240(s);
    s := Steps248(s);
    Ends(s, 103);
  }

  lemma Ends(s: State, right: nat)
    ensures Schedule(s, KEY, 256, right) == s
  {}

  /** One byte of the stream. */
  lemma Next(g: Generator, left: nat, right: nat, cell: nat, output: byte, n: nat) returns (later: Generator)
    requires g.Valid() && n > 0 && left == (g.left + 1) % 256 && right == (g.right + g.s[left] as int) % 256
    requires cell == (g.s[left] as int + g.s[right] as int) % 256 && Swapped(g.s, left, right)[cell] == output
    ensures later == Generator(left, right, Swapped(g.s, left, right)) && later.Valid()
    ensures KeyStream(g, n) == [output] + KeyStream(later, n - 1)
  {
    later := g.Next();
  }

  lemma NoStream(g: Generator)
    requires g.Valid()
    ensures KeyStream(g, 0) == []
  {}

  /** The stream starts as published. */
  const STREAM: Bytes := [0xb2, 0x39, 0x63, 0x05, 0xf0, 0x3d, 0xc0, 0x27]

  lemma PublishedVector()
    ensures KeyStream(Start(KEY), 8) == STREAM
    ensures Rc4.Rc4([0, 0, 0, 0, 0, 0, 0, 0], KEY) == STREAM
  {
    hide Schedule, KeyStream;
    var s := Scheduled();
    Outputs(s);
    XorZeros(STREAM);
  }

  lemma XorZeros(s: Bytes)
    ensures Xor(seq(|s|, _ => 0), s) == s
  {
    hide Xored;
    assert forall b :: Xored(0, b) == b by {
      forall b
        ensures Xored(0, b) == b
      {
        XorZero(b);
      }
    }
  }

  lemma XorZero(b: byte)
    ensures Xored(0, b) == b
  {
    NumberOfBits(b);
    ZeroBits(b as bv8);
  }

  lemma ZeroBits(x: bv8)
    ensures (0 as byte) as bv8 ^ x == x
  {}
}
