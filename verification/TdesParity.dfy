/**
 The parity of DES key bytes: the table that sets the lowest bit so that an odd number of bits is set.
 */
module TdesParity {
  import opened Bits

  function Entries0(b: bv8): bv8 {
    match b
    case 0 => 1 case 1 => 1 case 2 => 2 case 3 => 2
    case 4 => 4 case 5 => 4 case 6 => 7 case 7 => 7
    case 8 => 8 case 9 => 8 case 10 => 11 case 11 => 11
    case 12 => 13 case 13 => 13 case 14 => 14 case 15 => 14
    case 16 => 16 case 17 => 16 case 18 => 19 case 19 => 19
    case 20 => 21 case 21 => 21 case 22 => 22 case 23 => 22
    case 24 => 25 case 25 => 25 case 26 => 26 case 27 => 26
    case 28 => 28 case 29 => 28 case 30 => 31 case 31 => 31
    case _ => 0
  }

  function Entries32(b: bv8): bv8 {
    match b
    case 32 => 32 case 33 => 32 case 34 => 35 case 35 => 35
    case 36 => 37 case 37 => 37 case 38 => 38 case 39 => 38
    case 40 => 41 case 41 => 41 case 42 => 42 case 43 => 42
    case 44 => 44 case 45 => 44 case 46 => 47 case 47 => 47
    case 48 => 49 case 49 => 49 case 50 => 50 case 51 => 50
    case 52 => 52 case 53 => 52 case 54 => 55 case 55 => 55
    case 56 => 56 case 57 => 56 case 58 => 59 case 59 => 59
    case 60 => 61 case 61 => 61 case 62 => 62 case 63 => 62
    case _ => 0
  }

  function Entries64(b: bv8): bv8 {
    match b
    case 64 => 64 case 65 => 64 case 66 => 67 case 67 => 67
    case 68 => 69 case 69 => 69 case 70 => 70 case 71 => 70
    case 72 => 73 case 73 => 73 case 74 => 74 case 75 => 74
    case 76 => 76 case 77 => 76 case 78 => 79 case 79 => 79
    case 80 => 81 case 81 => 81 case 82 => 82 case 83 => 82
    case 84 => 84 case 85 => 84 case 86 => 87 case 87 => 87
    case 88 => 88 case 89 => 88 case 90 => 91 case 91 => 91
    case 92 => 93 case 93 => 93 case 94 => 94 case 95 => 94
    case _ => 0
  }

  function Entries96(b: bv8): bv8 {
    match b
    case 96 => 97 case 97 => 97 case 98 => 98 case 99 => 98
    case 100 => 100 case 101 => 100 case 102 => 103 case 103 => 103
    case 104 => 104 case 105 => 104 case 106 => 107 case 107 => 107
    case 108 => 109 case 109 => 109 case 110 => 110 case 111 => 110
    case 112 => 112 case 113 => 112 case 114 => 115 case 115 => 115
    case 116 => 117 case 117 => 117 case 118 => 118 case 119 => 118
    case 120 => 121 case 121 => 121 case 122 => 122 case 123 => 122
    case 124 => 124 case 125 => 124 case 126 => 127 case 127 => 127
    case _ => 0
  }

  function Entries128(b: bv8): bv8 {
    match b
    case 128 => 128 case 129 => 128 case 130 => 131 case 131 => 131
    case 132 => 133 case 133 => 133 case 134 => 134 case 135 => 134
    case 136 => 137 case 137 => 137 case 138 => 138 case 139 => 138
    case 140 => 140 case 141 => 140 case 142 => 143 case 143 => 143
    case 144 => 145 case 145 => 145 case 146 => 146 case 147 => 146
    case 148 => 148 case 149 => 148 case 150 => 151 case 151 => 151
    case 152 => 152 case 153 => 152 case 154 => 155 case 155 => 155
    case 156 => 157 case 157 => 157 case 158 => 158 case 159 => 158
    case _ => 0
  }

  function Entries160(b: bv8): bv8 {
    match b
    case 160 => 161 case 161 => 161 case 162 => 162 case 163 => 162
    case 164 => 164 case 165 => 164 case 166 => 167 case 167 => 167
    case 168 => 168 case 169 => 168 case 170 => 171 case 171 => 171
    case 172 => 173 case 173 => 173 case 174 => 174 case 175 => 174
    case 176 => 176 case 177 => 176 case 178 => 179 case 179 => 179
    case 180 => 181 case 181 => 181 case 182 => 182 case 183 => 182
    case 184 => 185 case 185 => 185 case 186 => 186 case 187 => 186
    case 188 => 188 case 189 => 188 case 190 => 191 case 191 => 191
    case _ => 0
  }

  function Entries192(b: bv8): bv8 {
    match b
    case 192 => 193 case 193 => 193 case 194 => 194 case 195 => 194
    case 196 => 196 case 197 => 196 case 198 => 199 case 199 => 199
    case 200 => 200 case 201 => 200 case 202 => 203 case 203 => 203
    case 204 => 205 case 205 => 205 case 206 => 206 case 207 => 206
    case 208 => 208 case 209 => 208 case 210 => 211 case 211 => 211
    case 212 => 213 case 213 => 213 case 214 => 214 case 215 => 214
    case 216 => 217 case 217 => 217 case 218 => 218 case 219 => 218
    case 220 => 220 case 221 => 220 case 222 => 223 case 223 => 223
    case _ => 0
  }

  function Entries224(b: bv8): bv8 {
    match b
    case 224 => 224 case 225 => 224 case 226 => 227 case 227 => 227
    case 228 => 229 case 229 => 229 case 230 => 230 case 231 => 230
    case 232 => 233 case 233 => 233 case 234 => 234 case 235 => 234
    case 236 => 236 case 237 => 236 case 238 => 239 case 239 => 239
    case 240 => 241 case 241 => 241 case 242 => 242 case 243 => 242
    case 244 => 244 case 245 => 244 case 246 => 247 case 247 => 247
    case 248 => 248 case 249 => 248 case 250 => 251 case 251 => 251
    case 252 => 253 case 253 => 253 case 254 => 254 case 255 => 254
    case _ => 0
  }

  /** The table, in eight parts. */
  function ParityTable(b: bv8): bv8 {
    if b < 0x80 then
      if b < 0x40 then (if b < 0x20 then Entries0(b) else Entries32(b))
      else (if b < 0x60 then Entries64(b) else Entries96(b))
    else
      if b < 0xC0 then (if b < 0xA0 then Entries128(b) else Entries160(b))
      else (if b < 0xE0 then Entries192(b) else Entries224(b))
  }

  /** How many of the bits of a byte, from bit k on, are set. */
  function Ones(b: bv8, k: nat := 0): (n: nat)
    requires k <= 8
    decreases 8 - k
  {
    if k == 8 then 0 else (if GetBit(b, k) then 1 else 0) + Ones(b, k + 1)
  }

  /** The parity byte for `b`: an odd number of ones, and the same upper seven bits. */
  ghost predicate ParityOf(b: bv8, p: bv8) {
    && Ones(p) % 2 == 1
    && forall k: nat :: k < 7 ==> GetBit(p, k) == GetBit(b, k)
  }

  predicate Folded(b: bv8, p: bv8) {
    var c := p ^ (p >> 4);
    var d := c ^ (c >> 2);
    p & 0xFE == b & 0xFE && (d ^ (d >> 1)) & 1 == 1
  }

  lemma Folded0(b: bv8)
    requires 0 <= b < 32
    ensures Folded(b, Entries0(b))
  {}

  lemma Folded32(b: bv8)
    requires 32 <= b < 64
    ensures Folded(b, Entries32(b))
  {}

  lemma Folded64(b: bv8)
    requires 64 <= b < 96
    ensures Folded(b, Entries64(b))
  {}

  lemma Folded96(b: bv8)
    requires 96 <= b < 128
    ensures Folded(b, Entries96(b))
  {}

  lemma Folded128(b: bv8)
    requires 128 <= b < 160
    ensures Folded(b, Entries128(b))
  {}

  lemma Folded160(b: bv8)
    requires 160 <= b < 192
    ensures Folded(b, Entries160(b))
  {}

  lemma Folded192(b: bv8)
    requires 192 <= b < 224
    ensures Folded(b, Entries192(b))
  {}

  lemma Folded224(b: bv8)
    requires 224 <= b
    ensures Folded(b, Entries224(b))
  {}

  lemma FoldedTable(b: bv8)
    ensures Folded(b, ParityTable(b))
  {
    hide Folded;
    hide Entries0, Entries32, Entries64, Entries96, Entries128, Entries160, Entries192, Entries224;
    if b < 0x20 {
      Folded0(b);
    } else if b < 0x40 {
      Folded32(b);
    } else if b < 0x60 {
      Folded64(b);
    } else if b < 0x80 {
      Folded96(b);
    } else if b < 0xA0 {
      Folded128(b);
    } else if b < 0xC0 {
      Folded160(b);
    } else if b < 0xE0 {
      Folded192(b);
    } else {
      Folded224(b);
    }
  }

  lemma FoldedOdd(p: bv8, c: bv8, d: bv8)
    requires c == p ^ (p >> 4) && d == c ^ (c >> 2) && (d ^ (d >> 1)) & 1 == 1
    ensures ((GetBit(p, 0) != GetBit(p, 1)) != (GetBit(p, 2) != GetBit(p, 3)))
         != ((GetBit(p, 4) != GetBit(p, 5)) != (GetBit(p, 6) != GetBit(p, 7)))
  {}

  lemma OnesOdd(p: bv8)
    requires ((GetBit(p, 0) != GetBit(p, 1)) != (GetBit(p, 2) != GetBit(p, 3)))
         != ((GetBit(p, 4) != GetBit(p, 5)) != (GetBit(p, 6) != GetBit(p, 7)))
    ensures Ones(p) % 2 == 1
  {
    hide GetBit;
    assert Ones(p, 7) == if GetBit(p, 7) then 1 else 0;
    assert Ones(p, 6) == (if GetBit(p, 6) then 1 else 0) + Ones(p, 7);
    assert Ones(p, 5) == (if GetBit(p, 5) then 1 else 0) + Ones(p, 6);
    assert Ones(p, 4) == (if GetBit(p, 4) then 1 else 0) + Ones(p, 5);
    assert Ones(p, 3) == (if GetBit(p, 3) then 1 else 0) + Ones(p, 4);
    assert Ones(p, 2) == (if GetBit(p, 2) then 1 else 0) + Ones(p, 3);
    assert Ones(p, 1) == (if GetBit(p, 1) then 1 else 0) + Ones(p, 2);
  }

  lemma UpperBits(b: bv8, p: bv8, k: nat)
    requires k < 7 && p & 0xFE == b & 0xFE
    ensures GetBit(p, k) == GetBit(b, k)
  {}

  /** Every entry of the table is the parity byte of its index. */
  lemma TableIsParity(b: bv8)
    ensures ParityOf(b, ParityTable(b))
  {
    hide ParityTable, Ones, GetBit;
    var p := ParityTable(b);
    FoldedTable(b);
    FoldedOdd(p, p ^ (p >> 4), (p ^ (p >> 4)) ^ ((p ^ (p >> 4)) >> 2));
    OnesOdd(p);
    forall k: nat | k < 7
      ensures GetBit(p, k) == GetBit(b, k)
    {
      UpperBits(b, p, k);
    }
  }

  lemma {:induction false} SameOnes(p: bv8, q: bv8, k: nat)
    requires k <= 7 && forall n: nat :: n < 7 ==> GetBit(p, n) == GetBit(q, n)
    ensures Ones(p, k) - (if GetBit(p, 7) then 1 else 0) == Ones(q, k) - (if GetBit(q, 7) then 1 else 0)
    decreases 7 - k
  {
    hide GetBit;
    if k < 7 {
      SameOnes(p, q, k + 1);
    } else {
      assert Ones(p, 8) == Ones(q, 8) == 0;
    }
  }

  /** There is one parity byte for a byte, so the table holds it. */
  lemma ParityUnique(b: bv8, p: bv8)
    requires ParityOf(b, p)
    ensures p == ParityTable(b)
  {
    hide GetBit, Ones, ParityTable;
    var q := ParityTable(b);
    TableIsParity(b);
    forall n: nat | n < 7
      ensures GetBit(p, n) == GetBit(q, n)
    {
      assert GetBit(p, n) == GetBit(b, n);
    }
    SameOnes(p, q, 0);
    assert GetBit(p, 7) == GetBit(q, 7);
    forall k: nat | k < 8
      ensures GetBit(p, k) == GetBit(q, k)
    {}
    BitsDetermine(p, q);
  }
}
