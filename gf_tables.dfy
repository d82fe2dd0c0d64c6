/** The two constant tables behind the GF(256) arithmetic of ltq-nand.c:
    g_num2alpha (the discrete logarithm) and g_alpha2num (its inverse, the
    powers of the generator alpha). Both are 256-entry arrays of unsigned char;
    here each is written as sixteen rows of sixteen entries, in the order of
    the C initialiser, and the row is chosen by comparing the index with the
    row boundaries. g_num2alpha is read through a byte, g_alpha2num through
    the number 0 .. 255 that g_mul computes.

    The lemmas at the end, eight entries each, check every entry of both
    tables against the field they are meant to describe, GF(2)[x] modulo
    x^8 + x^7 + x^2 + x + 1, in which alpha = x and alpha^8 = 0x87 = 135:
    together they make NandTables a valid pair in the sense of Gf. */
module GfTables {
  import opened Gf

  // g_num2alpha: LogRowH(c) is the entry at index 16*H + c, for c < 16.
  function LogRow0(c: int): bv8 {
    match c
      case 0 =>   0  case 1 =>   0  case 2 =>   1  case 3 =>  99
      case 4 =>   2  case 5 => 198  case 6 => 100  case 7 => 106
      case 8 =>   3  case 9 => 205  case 10 => 199  case 11 => 188
      case 12 => 101  case 13 => 126  case 14 => 107  case _ =>  42
  }
  function LogRow1(c: int): bv8 {
    match c
      case 0 =>   4  case 1 => 141  case 2 => 206  case 3 =>  78
      case 4 => 200  case 5 => 212  case 6 => 189  case 7 => 225
      case 8 => 102  case 9 => 221  case 10 => 127  case 11 =>  49
      case 12 => 108  case 13 =>  32  case 14 =>  43  case _ => 243
  }
  function LogRow2(c: int): bv8 {
    match c
      case 0 =>   5  case 1 =>  87  case 2 => 142  case 3 => 232
      case 4 => 207  case 5 => 172  case 6 =>  79  case 7 => 131
      case 8 => 201  case 9 => 217  case 10 => 213  case 11 =>  65
      case 12 => 190  case 13 => 148  case 14 => 226  case _ => 180
  }
  function LogRow3(c: int): bv8 {
    match c
      case 0 => 103  case 1 =>  39  case 2 => 222  case 3 => 240
      case 4 => 128  case 5 => 177  case 6 =>  50  case 7 =>  53
      case 8 => 109  case 9 =>  69  case 10 =>  33  case 11 =>  18
      case 12 =>  44  case 13 =>  13  case 14 => 244  case _ =>  56
  }
  function LogRow4(c: int): bv8 {
    match c
      case 0 =>   6  case 1 => 155  case 2 =>  88  case 3 =>  26
      case 4 => 143  case 5 => 121  case 6 => 233  case 7 => 112
      case 8 => 208  case 9 => 194  case 10 => 173  case 11 => 168
      case 12 =>  80  case 13 => 117  case 14 => 132  case _ =>  72
  }
  function LogRow5(c: int): bv8 {
    match c
      case 0 => 202  case 1 => 252  case 2 => 218  case 3 => 138
      case 4 => 214  case 5 =>  84  case 6 =>  66  case 7 =>  36
      case 8 => 191  case 9 => 152  case 10 => 149  case 11 => 249
      case 12 => 227  case 13 =>  94  case 14 => 181  case _ =>  21
  }
  function LogRow6(c: int): bv8 {
    match c
      case 0 => 104  case 1 =>  97  case 2 =>  40  case 3 => 186
      case 4 => 223  case 5 =>  76  case 6 => 241  case 7 =>  47
      case 8 => 129  case 9 => 230  case 10 => 178  case 11 =>  63
      case 12 =>  51  case 13 => 238  case 14 =>  54  case _ =>  16
  }
  function LogRow7(c: int): bv8 {
    match c
      case 0 => 110  case 1 =>  24  case 2 =>  70  case 3 => 166
      case 4 =>  34  case 5 => 136  case 6 =>  19  case 7 => 247
      case 8 =>  45  case 9 => 184  case 10 =>  14  case 11 =>  61
      case 12 => 245  case 13 => 164  case 14 =>  57  case _ =>  59
  }
  function LogRow8(c: int): bv8 {
    match c
      case 0 =>   7  case 1 => 158  case 2 => 156  case 3 => 157
      case 4 =>  89  case 5 => 159  case 6 =>  27  case 7 =>   8
      case 8 => 144  case 9 =>   9  case 10 => 122  case 11 =>  28
      case 12 => 234  case 13 => 160  case 14 => 113  case _ =>  90
  }
  function LogRow9(c: int): bv8 {
    match c
      case 0 => 209  case 1 =>  29  case 2 => 195  case 3 => 123
      case 4 => 174  case 5 =>  10  case 6 => 169  case 7 => 145
      case 8 =>  81  case 9 =>  91  case 10 => 118  case 11 => 114
      case 12 => 133  case 13 => 161  case 14 =>  73  case _ => 235
  }
  function LogRowA(c: int): bv8 {
    match c
      case 0 => 203  case 1 => 124  case 2 => 253  case 3 => 196
      case 4 => 219  case 5 =>  30  case 6 => 139  case 7 => 210
      case 8 => 215  case 9 => 146  case 10 =>  85  case 11 => 170
      case 12 =>  67  case 13 =>  11  case 14 =>  37  case _ => 175
  }
  function LogRowB(c: int): bv8 {
    match c
      case 0 => 192  case 1 => 115  case 2 => 153  case 3 => 119
      case 4 => 150  case 5 =>  92  case 6 => 250  case 7 =>  82
      case 8 => 228  case 9 => 236  case 10 =>  95  case 11 =>  74
      case 12 => 182  case 13 => 162  case 14 =>  22  case _ => 134
  }
  function LogRowC(c: int): bv8 {
    match c
      case 0 => 105  case 1 => 197  case 2 =>  98  case 3 => 254
      case 4 =>  41  case 5 => 125  case 6 => 187  case 7 => 204
      case 8 => 224  case 9 => 211  case 10 =>  77  case 11 => 140
      case 12 => 242  case 13 =>  31  case 14 =>  48  case _ => 220
  }
  function LogRowD(c: int): bv8 {
    match c
      case 0 => 130  case 1 => 171  case 2 => 231  case 3 =>  86
      case 4 => 179  case 5 => 147  case 6 =>  64  case 7 => 216
      case 8 =>  52  case 9 => 176  case 10 => 239  case 11 =>  38
      case 12 =>  55  case 13 =>  12  case 14 =>  17  case _ =>  68
  }
  function LogRowE(c: int): bv8 {
    match c
      case 0 => 111  case 1 => 120  case 2 =>  25  case 3 => 154
      case 4 =>  71  case 5 => 116  case 6 => 167  case 7 => 193
      case 8 =>  35  case 9 =>  83  case 10 => 137  case 11 => 251
      case 12 =>  20  case 13 =>  93  case 14 => 248  case _ => 151
  }
  function LogRowF(c: int): bv8 {
    match c
      case 0 =>  46  case 1 =>  75  case 2 => 185  case 3 =>  96
      case 4 =>  15  case 5 => 237  case 6 =>  62  case 7 => 229
      case 8 => 246  case 9 => 135  case 10 => 165  case 11 =>  23
      case 12 =>  58  case 13 => 163  case 14 =>  60  case _ => 183
  }

  // g_alpha2num: AntilogRowH(c) is the entry at index 16*H + c, for c < 16.
  function AntilogRow0(c: int): bv8 {
    match c
      case 0 =>   1  case 1 =>   2  case 2 =>   4  case 3 =>   8
      case 4 =>  16  case 5 =>  32  case 6 =>  64  case 7 => 128
      case 8 => 135  case 9 => 137  case 10 => 149  case 11 => 173
      case 12 => 221  case 13 =>  61  case 14 => 122  case _ => 244
  }
  function AntilogRow1(c: int): bv8 {
    match c
      case 0 => 111  case 1 => 222  case 2 =>  59  case 3 => 118
      case 4 => 236  case 5 =>  95  case 6 => 190  case 7 => 251
      case 8 => 113  case 9 => 226  case 10 =>  67  case 11 => 134
      case 12 => 139  case 13 => 145  case 14 => 165  case _ => 205
  }
  function AntilogRow2(c: int): bv8 {
    match c
      case 0 =>  29  case 1 =>  58  case 2 => 116  case 3 => 232
      case 4 =>  87  case 5 => 174  case 6 => 219  case 7 =>  49
      case 8 =>  98  case 9 => 196  case 10 =>  15  case 11 =>  30
      case 12 =>  60  case 13 => 120  case 14 => 240  case _ => 103
  }
  function AntilogRow3(c: int): bv8 {
    match c
      case 0 => 206  case 1 =>  27  case 2 =>  54  case 3 => 108
      case 4 => 216  case 5 =>  55  case 6 => 110  case 7 => 220
      case 8 =>  63  case 9 => 126  case 10 => 252  case 11 => 127
      case 12 => 254  case 13 => 123  case 14 => 246  case _ => 107
  }
  function AntilogRow4(c: int): bv8 {
    match c
      case 0 => 214  case 1 =>  43  case 2 =>  86  case 3 => 172
      case 4 => 223  case 5 =>  57  case 6 => 114  case 7 => 228
      case 8 =>  79  case 9 => 158  case 10 => 187  case 11 => 241
      case 12 => 101  case 13 => 202  case 14 =>  19  case _ =>  38
  }
  function AntilogRow5(c: int): bv8 {
    match c
      case 0 =>  76  case 1 => 152  case 2 => 183  case 3 => 233
      case 4 =>  85  case 5 => 170  case 6 => 211  case 7 =>  33
      case 8 =>  66  case 9 => 132  case 10 => 143  case 11 => 153
      case 12 => 181  case 13 => 237  case 14 =>  93  case _ => 186
  }
  function AntilogRow6(c: int): bv8 {
    match c
      case 0 => 243  case 1 =>  97  case 2 => 194  case 3 =>   3
      case 4 =>   6  case 5 =>  12  case 6 =>  24  case 7 =>  48
      case 8 =>  96  case 9 => 192  case 10 =>   7  case 11 =>  14
      case 12 =>  28  case 13 =>  56  case 14 => 112  case _ => 224
  }
  function AntilogRow7(c: int): bv8 {
    match c
      case 0 =>  71  case 1 => 142  case 2 => 155  case 3 => 177
      case 4 => 229  case 5 =>  77  case 6 => 154  case 7 => 179
      case 8 => 225  case 9 =>  69  case 10 => 138  case 11 => 147
      case 12 => 161  case 13 => 197  case 14 =>  13  case _ =>  26
  }
  function AntilogRow8(c: int): bv8 {
    match c
      case 0 =>  52  case 1 => 104  case 2 => 208  case 3 =>  39
      case 4 =>  78  case 5 => 156  case 6 => 191  case 7 => 249
      case 8 => 117  case 9 => 234  case 10 =>  83  case 11 => 166
      case 12 => 203  case 13 =>  17  case 14 =>  34  case _ =>  68
  }
  function AntilogRow9(c: int): bv8 {
    match c
      case 0 => 136  case 1 => 151  case 2 => 169  case 3 => 213
      case 4 =>  45  case 5 =>  90  case 6 => 180  case 7 => 239
      case 8 =>  89  case 9 => 178  case 10 => 227  case 11 =>  65
      case 12 => 130  case 13 => 131  case 14 => 129  case _ => 133
  }
  function AntilogRowA(c: int): bv8 {
    match c
      case 0 => 141  case 1 => 157  case 2 => 189  case 3 => 253
      case 4 => 125  case 5 => 250  case 6 => 115  case 7 => 230
      case 8 =>  75  case 9 => 150  case 10 => 171  case 11 => 209
      case 12 =>  37  case 13 =>  74  case 14 => 148  case _ => 175
  }
  function AntilogRowB(c: int): bv8 {
    match c
      case 0 => 217  case 1 =>  53  case 2 => 106  case 3 => 212
      case 4 =>  47  case 5 =>  94  case 6 => 188  case 7 => 255
      case 8 => 121  case 9 => 242  case 10 =>  99  case 11 => 198
      case 12 =>  11  case 13 =>  22  case 14 =>  44  case _ =>  88
  }
  function AntilogRowC(c: int): bv8 {
    match c
      case 0 => 176  case 1 => 231  case 2 =>  73  case 3 => 146
      case 4 => 163  case 5 => 193  case 6 =>   5  case 7 =>  10
      case 8 =>  20  case 9 =>  40  case 10 =>  80  case 11 => 160
      case 12 => 199  case 13 =>   9  case 14 =>  18  case _ =>  36
  }
  function AntilogRowD(c: int): bv8 {
    match c
      case 0 =>  72  case 1 => 144  case 2 => 167  case 3 => 201
      case 4 =>  21  case 5 =>  42  case 6 =>  84  case 7 => 168
      case 8 => 215  case 9 =>  41  case 10 =>  82  case 11 => 164
      case 12 => 207  case 13 =>  25  case 14 =>  50  case _ => 100
  }
  function AntilogRowE(c: int): bv8 {
    match c
      case 0 => 200  case 1 =>  23  case 2 =>  46  case 3 =>  92
      case 4 => 184  case 5 => 247  case 6 => 105  case 7 => 210
      case 8 =>  35  case 9 =>  70  case 10 => 140  case 11 => 159
      case 12 => 185  case 13 => 245  case 14 => 109  case _ => 218
  }
  function AntilogRowF(c: int): bv8 {
    match c
      case 0 =>  51  case 1 => 102  case 2 => 204  case 3 =>  31
      case 4 =>  62  case 5 => 124  case 6 => 248  case 7 => 119
      case 8 => 238  case 9 =>  91  case 10 => 182  case 11 => 235
      case 12 =>  81  case 13 => 162  case 14 => 195  case _ =>   1
  }

  /** g_num2alpha[a]. */
  function Log(a: bv8): bv8 {
    var i := a as int;
    if i < 128 then
      if i < 64 then
        if i < 32 then
          if i < 16 then LogRow0(i) else LogRow1(i - 16)
        else
          if i < 48 then LogRow2(i - 32) else LogRow3(i - 48)
      else
        if i < 96 then
          if i < 80 then LogRow4(i - 64) else LogRow5(i - 80)
        else
          if i < 112 then LogRow6(i - 96) else LogRow7(i - 112)
    else
      if i < 192 then
        if i < 160 then
          if i < 144 then LogRow8(i - 128) else LogRow9(i - 144)
        else
          if i < 176 then LogRowA(i - 160) else LogRowB(i - 176)
      else
        if i < 224 then
          if i < 208 then LogRowC(i - 192) else LogRowD(i - 208)
        else
          if i < 240 then LogRowE(i - 224) else LogRowF(i - 240)
  }

  /** g_alpha2num[e] for 0 <= e < 256. */
  function Antilog(e: int): bv8 {
    if e < 0 || e > 255 then 0
    else if e < 128 then
      if e < 64 then
        if e < 32 then
          if e < 16 then AntilogRow0(e) else AntilogRow1(e - 16)
        else
          if e < 48 then AntilogRow2(e - 32) else AntilogRow3(e - 48)
      else
        if e < 96 then
          if e < 80 then AntilogRow4(e - 64) else AntilogRow5(e - 80)
        else
          if e < 112 then AntilogRow6(e - 96) else AntilogRow7(e - 112)
    else
      if e < 192 then
        if e < 160 then
          if e < 144 then AntilogRow8(e - 128) else AntilogRow9(e - 144)
        else
          if e < 176 then AntilogRowA(e - 160) else AntilogRowB(e - 176)
      else
        if e < 224 then
          if e < 208 then AntilogRowC(e - 192) else AntilogRowD(e - 208)
        else
          if e < 240 then AntilogRowE(e - 224) else AntilogRowF(e - 240)
  }

  /** The pair of tables compiled into the program. */
  const NandTables: Tables := Tables(Log, Antilog)

  /** The compiled-in tables are the powers of alpha and their logarithms. */
  lemma NandTablesValid()
    ensures ValidTables(NandTables)
  {
    forall e: int | 0 <= e < 255
      ensures StepAt(NandTables, e)
    {
      AntilogStep(e);
    }
    forall a: bv8 | a != 0
      ensures NandTables.antilog(NandTables.log(a) as int) == a
    {
      LogInverse(a);
    }
  }

  /** Each antilog entry is alpha times the one before it: the table lists
      alpha^0, alpha^1, ..., alpha^255 of the field above. */
  lemma AntilogStep(e: int)
    requires 0 <= e < 255
    ensures Antilog(e + 1) == XTime(Antilog(e))
  {
    if e <= 0x07 { AntilogSteps00(e); }
    else if e <= 0x0f { AntilogSteps08(e); }
    else if e <= 0x17 { AntilogSteps10(e); }
    else if e <= 0x1f { AntilogSteps18(e); }
    else if e <= 0x27 { AntilogSteps20(e); }
    else if e <= 0x2f { AntilogSteps28(e); }
    else if e <= 0x37 { AntilogSteps30(e); }
    else if e <= 0x3f { AntilogSteps38(e); }
    else if e <= 0x47 { AntilogSteps40(e); }
    else if e <= 0x4f { AntilogSteps48(e); }
    else if e <= 0x57 { AntilogSteps50(e); }
    else if e <= 0x5f { AntilogSteps58(e); }
    else if e <= 0x67 { AntilogSteps60(e); }
    else if e <= 0x6f { AntilogSteps68(e); }
    else if e <= 0x77 { AntilogSteps70(e); }
    else if e <= 0x7f { AntilogSteps78(e); }
    else if e <= 0x87 { AntilogSteps80(e); }
    else if e <= 0x8f { AntilogSteps88(e); }
    else if e <= 0x97 { AntilogSteps90(e); }
    else if e <= 0x9f { AntilogSteps98(e); }
    else if e <= 0xa7 { AntilogStepsA0(e); }
    else if e <= 0xaf { AntilogStepsA8(e); }
    else if e <= 0xb7 { AntilogStepsB0(e); }
    else if e <= 0xbf { AntilogStepsB8(e); }
    else if e <= 0xc7 { AntilogStepsC0(e); }
    else if e <= 0xcf { AntilogStepsC8(e); }
    else if e <= 0xd7 { AntilogStepsD0(e); }
    else if e <= 0xdf { AntilogStepsD8(e); }
    else if e <= 0xe7 { AntilogStepsE0(e); }
    else if e <= 0xef { AntilogStepsE8(e); }
    else if e <= 0xf7 { AntilogStepsF0(e); }
    else { AntilogStepsF8(e); }
  }

  /** The two tables are mutually inverse on the nonzero elements. */
  lemma LogInverse(a: bv8)
    requires a != 0
    ensures Antilog(Log(a) as int) == a
  {
    if a <= 0x07 { LogInverses00(a); }
    else if a <= 0x0f { LogInverses08(a); }
    else if a <= 0x17 { LogInverses10(a); }
    else if a <= 0x1f { LogInverses18(a); }
    else if a <= 0x27 { LogInverses20(a); }
    else if a <= 0x2f { LogInverses28(a); }
    else if a <= 0x37 { LogInverses30(a); }
    else if a <= 0x3f { LogInverses38(a); }
    else if a <= 0x47 { LogInverses40(a); }
    else if a <= 0x4f { LogInverses48(a); }
    else if a <= 0x57 { LogInverses50(a); }
    else if a <= 0x5f { LogInverses58(a); }
    else if a <= 0x67 { LogInverses60(a); }
    else if a <= 0x6f { LogInverses68(a); }
    else if a <= 0x77 { LogInverses70(a); }
    else if a <= 0x7f { LogInverses78(a); }
    else if a <= 0x87 { LogInverses80(a); }
    else if a <= 0x8f { LogInverses88(a); }
    else if a <= 0x97 { LogInverses90(a); }
    else if a <= 0x9f { LogInverses98(a); }
    else if a <= 0xa7 { LogInversesA0(a); }
    else if a <= 0xaf { LogInversesA8(a); }
    else if a <= 0xb7 { LogInversesB0(a); }
    else if a <= 0xbf { LogInversesB8(a); }
    else if a <= 0xc7 { LogInversesC0(a); }
    else if a <= 0xcf { LogInversesC8(a); }
    else if a <= 0xd7 { LogInversesD0(a); }
    else if a <= 0xdf { LogInversesD8(a); }
    else if a <= 0xe7 { LogInversesE0(a); }
    else if a <= 0xef { LogInversesE8(a); }
    else if a <= 0xf7 { LogInversesF0(a); }
    else { LogInversesF8(a); }
  }

  // Entry-by-entry checks, eight entries per lemma.

  lemma AntilogSteps00(e: int)
    requires 0x00 <= e <= 0x07
    ensures Antilog(e + 1) == XTime(Antilog(e))
  {
    if e == 0x00 { } else if e == 0x01 { } else if e == 0x02 { } else if e == 0x03 { }
    else if e == 0x04 { } else if e == 0x05 { } else if e == 0x06 { }
    else { assert e == 0x07; }
  }

  lemma AntilogSteps08(e: int)
    requires 0x08 <= e <= 0x0f
    ensures Antilog(e + 1) == XTime(Antilog(e))
  {
    if e == 0x08 { } else if e == 0x09 { } else if e == 0x0a { } else if e == 0x0b { }
    else if e == 0x0c { } else if e == 0x0d { } else if e == 0x0e { }
    else { assert e == 0x0f; }
  }

  lemma AntilogSteps10(e: int)
    requires 0x10 <= e <= 0x17
    ensures Antilog(e + 1) == XTime(Antilog(e))
  {
    if e == 0x10 { } else if e == 0x11 { } else if e == 0x12 { } else if e == 0x13 { }
    else if e == 0x14 { } else if e == 0x15 { } else if e == 0x16 { }
    else { assert e == 0x17; }
  }

  lemma AntilogSteps18(e: int)
    requires 0x18 <= e <= 0x1f
    ensures Antilog(e + 1) == XTime(Antilog(e))
  {
    if e == 0x18 { } else if e == 0x19 { } else if e == 0x1a { } else if e == 0x1b { }
    else if e == 0x1c { } else if e == 0x1d { } else if e == 0x1e { }
    else { assert e == 0x1f; }
  }

  lemma AntilogSteps20(e: int)
    requires 0x20 <= e <= 0x27
    ensures Antilog(e + 1) == XTime(Antilog(e))
  {
    if e == 0x20 { } else if e == 0x21 { } else if e == 0x22 { } else if e == 0x23 { }
    else if e == 0x24 { } else if e == 0x25 { } else if e == 0x26 { }
    else { assert e == 0x27; }
  }

  lemma AntilogSteps28(e: int)
    requires 0x28 <= e <= 0x2f
    ensures Antilog(e + 1) == XTime(Antilog(e))
  {
    if e == 0x28 { } else if e == 0x29 { } else if e == 0x2a { } else if e == 0x2b { }
    else if e == 0x2c { } else if e == 0x2d { } else if e == 0x2e { }
    else { assert e == 0x2f; }
  }

  lemma AntilogSteps30(e: int)
    requires 0x30 <= e <= 0x37
    ensures Antilog(e + 1) == XTime(Antilog(e))
  {
    if e == 0x30 { } else if e == 0x31 { } else if e == 0x32 { } else if e == 0x33 { }
    else if e == 0x34 { } else if e == 0x35 { } else if e == 0x36 { }
    else { assert e == 0x37; }
  }

  lemma AntilogSteps38(e: int)
    requires 0x38 <= e <= 0x3f
    ensures Antilog(e + 1) == XTime(Antilog(e))
  {
    if e == 0x38 { } else if e == 0x39 { } else if e == 0x3a { } else if e == 0x3b { }
    else if e == 0x3c { } else if e == 0x3d { } else if e == 0x3e { }
    else { assert e == 0x3f; }
  }

  lemma AntilogSteps40(e: int)
    requires 0x40 <= e <= 0x47
    ensures Antilog(e + 1) == XTime(Antilog(e))
  {
    if e == 0x40 { } else if e == 0x41 { } else if e == 0x42 { } else if e == 0x43 { }
    else if e == 0x44 { } else if e == 0x45 { } else if e == 0x46 { }
    else { assert e == 0x47; }
  }

  lemma AntilogSteps48(e: int)
    requires 0x48 <= e <= 0x4f
    ensures Antilog(e + 1) == XTime(Antilog(e))
  {
    if e == 0x48 { } else if e == 0x49 { } else if e == 0x4a { } else if e == 0x4b { }
    else if e == 0x4c { } else if e == 0x4d { } else if e == 0x4e { }
    else { assert e == 0x4f; }
  }

  lemma AntilogSteps50(e: int)
    requires 0x50 <= e <= 0x57
    ensures Antilog(e + 1) == XTime(Antilog(e))
  {
    if e == 0x50 { } else if e == 0x51 { } else if e == 0x52 { } else if e == 0x53 { }
    else if e == 0x54 { } else if e == 0x55 { } else if e == 0x56 { }
    else { assert e == 0x57; }
  }

  lemma AntilogSteps58(e: int)
    requires 0x58 <= e <= 0x5f
    ensures Antilog(e + 1) == XTime(Antilog(e))
  {
    if e == 0x58 { } else if e == 0x59 { } else if e == 0x5a { } else if e == 0x5b { }
    else if e == 0x5c { } else if e == 0x5d { } else if e == 0x5e { }
    else { assert e == 0x5f; }
  }

  lemma AntilogSteps60(e: int)
    requires 0x60 <= e <= 0x67
    ensures Antilog(e + 1) == XTime(Antilog(e))
  {
    if e == 0x60 { } else if e == 0x61 { } else if e == 0x62 { } else if e == 0x63 { }
    else if e == 0x64 { } else if e == 0x65 { } else if e == 0x66 { }
    else { assert e == 0x67; }
  }

  lemma AntilogSteps68(e: int)
    requires 0x68 <= e <= 0x6f
    ensures Antilog(e + 1) == XTime(Antilog(e))
  {
    if e == 0x68 { } else if e == 0x69 { } else if e == 0x6a { } else if e == 0x6b { }
    else if e == 0x6c { } else if e == 0x6d { } else if e == 0x6e { }
    else { assert e == 0x6f; }
  }

  lemma AntilogSteps70(e: int)
    requires 0x70 <= e <= 0x77
    ensures Antilog(e + 1) == XTime(Antilog(e))
  {
    if e == 0x70 { } else if e == 0x71 { } else if e == 0x72 { } else if e == 0x73 { }
    else if e == 0x74 { } else if e == 0x75 { } else if e == 0x76 { }
    else { assert e == 0x77; }
  }

  lemma AntilogSteps78(e: int)
    requires 0x78 <= e <= 0x7f
    ensures Antilog(e + 1) == XTime(Antilog(e))
  {
    if e == 0x78 { } else if e == 0x79 { } else if e == 0x7a { } else if e == 0x7b { }
    else if e == 0x7c { } else if e == 0x7d { } else if e == 0x7e { }
    else { assert e == 0x7f; }
  }

  lemma AntilogSteps80(e: int)
    requires 0x80 <= e <= 0x87
    ensures Antilog(e + 1) == XTime(Antilog(e))
  {
    if e == 0x80 { } else if e == 0x81 { } else if e == 0x82 { } else if e == 0x83 { }
    else if e == 0x84 { } else if e == 0x85 { } else if e == 0x86 { }
    else { assert e == 0x87; }
  }

  lemma AntilogSteps88(e: int)
    requires 0x88 <= e <= 0x8f
    ensures Antilog(e + 1) == XTime(Antilog(e))
  {
    if e == 0x88 { } else if e == 0x89 { } else if e == 0x8a { } else if e == 0x8b { }
    else if e == 0x8c { } else if e == 0x8d { } else if e == 0x8e { }
    else { assert e == 0x8f; }
  }

  lemma AntilogSteps90(e: int)
    requires 0x90 <= e <= 0x97
    ensures Antilog(e + 1) == XTime(Antilog(e))
  {
    if e == 0x90 { } else if e == 0x91 { } else if e == 0x92 { } else if e == 0x93 { }
    else if e == 0x94 { } else if e == 0x95 { } else if e == 0x96 { }
    else { assert e == 0x97; }
  }

  lemma AntilogSteps98(e: int)
    requires 0x98 <= e <= 0x9f
    ensures Antilog(e + 1) == XTime(Antilog(e))
  {
    if e == 0x98 { } else if e == 0x99 { } else if e == 0x9a { } else if e == 0x9b { }
    else if e == 0x9c { } else if e == 0x9d { } else if e == 0x9e { }
    else { assert e == 0x9f; }
  }

  lemma AntilogStepsA0(e: int)
    requires 0xa0 <= e <= 0xa7
    ensures Antilog(e + 1) == XTime(Antilog(e))
  {
    if e == 0xa0 { } else if e == 0xa1 { } else if e == 0xa2 { } else if e == 0xa3 { }
    else if e == 0xa4 { } else if e == 0xa5 { } else if e == 0xa6 { }
    else { assert e == 0xa7; }
  }

  lemma AntilogStepsA8(e: int)
    requires 0xa8 <= e <= 0xaf
    ensures Antilog(e + 1) == XTime(Antilog(e))
  {
    if e == 0xa8 { } else if e == 0xa9 { } else if e == 0xaa { } else if e == 0xab { }
    else if e == 0xac { } else if e == 0xad { } else if e == 0xae { }
    else { assert e == 0xaf; }
  }

  lemma AntilogStepsB0(e: int)
    requires 0xb0 <= e <= 0xb7
    ensures Antilog(e + 1) == XTime(Antilog(e))
  {
    if e == 0xb0 { } else if e == 0xb1 { } else if e == 0xb2 { } else if e == 0xb3 { }
    else if e == 0xb4 { } else if e == 0xb5 { } else if e == 0xb6 { }
    else { assert e == 0xb7; }
  }

  lemma AntilogStepsB8(e: int)
    requires 0xb8 <= e <= 0xbf
    ensures Antilog(e + 1) == XTime(Antilog(e))
  {
    if e == 0xb8 { } else if e == 0xb9 { } else if e == 0xba { } else if e == 0xbb { }
    else if e == 0xbc { } else if e == 0xbd { } else if e == 0xbe { }
    else { assert e == 0xbf; }
  }

  lemma AntilogStepsC0(e: int)
    requires 0xc0 <= e <= 0xc7
    ensures Antilog(e + 1) == XTime(Antilog(e))
  {
    if e == 0xc0 { } else if e == 0xc1 { } else if e == 0xc2 { } else if e == 0xc3 { }
    else if e == 0xc4 { } else if e == 0xc5 { } else if e == 0xc6 { }
    else { assert e == 0xc7; }
  }

  lemma AntilogStepsC8(e: int)
    requires 0xc8 <= e <= 0xcf
    ensures Antilog(e + 1) == XTime(Antilog(e))
  {
    if e == 0xc8 { } else if e == 0xc9 { } else if e == 0xca { } else if e == 0xcb { }
    else if e == 0xcc { } else if e == 0xcd { } else if e == 0xce { }
    else { assert e == 0xcf; }
  }

  lemma AntilogStepsD0(e: int)
    requires 0xd0 <= e <= 0xd7
    ensures Antilog(e + 1) == XTime(Antilog(e))
  {
    if e == 0xd0 { } else if e == 0xd1 { } else if e == 0xd2 { } else if e == 0xd3 { }
    else if e == 0xd4 { } else if e == 0xd5 { } else if e == 0xd6 { }
    else { assert e == 0xd7; }
  }

  lemma AntilogStepsD8(e: int)
    requires 0xd8 <= e <= 0xdf
    ensures Antilog(e + 1) == XTime(Antilog(e))
  {
    if e == 0xd8 { } else if e == 0xd9 { } else if e == 0xda { } else if e == 0xdb { }
    else if e == 0xdc { } else if e == 0xdd { } else if e == 0xde { }
    else { assert e == 0xdf; }
  }

  lemma AntilogStepsE0(e: int)
    requires 0xe0 <= e <= 0xe7
    ensures Antilog(e + 1) == XTime(Antilog(e))
  {
    if e == 0xe0 { } else if e == 0xe1 { } else if e == 0xe2 { } else if e == 0xe3 { }
    else if e == 0xe4 { } else if e == 0xe5 { } else if e == 0xe6 { }
    else { assert e == 0xe7; }
  }

  lemma AntilogStepsE8(e: int)
    requires 0xe8 <= e <= 0xef
    ensures Antilog(e + 1) == XTime(Antilog(e))
  {
    if e == 0xe8 { } else if e == 0xe9 { } else if e == 0xea { } else if e == 0xeb { }
    else if e == 0xec { } else if e == 0xed { } else if e == 0xee { }
    else { assert e == 0xef; }
  }

  lemma AntilogStepsF0(e: int)
    requires 0xf0 <= e <= 0xf7
    ensures Antilog(e + 1) == XTime(Antilog(e))
  {
    if e == 0xf0 { } else if e == 0xf1 { } else if e == 0xf2 { } else if e == 0xf3 { }
    else if e == 0xf4 { } else if e == 0xf5 { } else if e == 0xf6 { }
    else { assert e == 0xf7; }
  }

  lemma AntilogStepsF8(e: int)
    requires 0xf8 <= e <= 0xfe
    ensures Antilog(e + 1) == XTime(Antilog(e))
  {
    if e == 0xf8 { } else if e == 0xf9 { } else if e == 0xfa { } else if e == 0xfb { }
    else if e == 0xfc { } else if e == 0xfd { }
    else { assert e == 0xfe; }
  }

  lemma LogInverses00(a: bv8)
    requires 0x01 <= a <= 0x07
    ensures Antilog(Log(a) as int) == a
  {
    if a == 0x01 { } else if a == 0x02 { } else if a == 0x03 { } else if a == 0x04 { }
    else if a == 0x05 { } else if a == 0x06 { }
    else { assert a == 0x07; }
  }

  lemma LogInverses08(a: bv8)
    requires 0x08 <= a <= 0x0f
    ensures Antilog(Log(a) as int) == a
  {
    if a == 0x08 { } else if a == 0x09 { } else if a == 0x0a { } else if a == 0x0b { }
    else if a == 0x0c { } else if a == 0x0d { } else if a == 0x0e { }
    else { assert a == 0x0f; }
  }

  lemma LogInverses10(a: bv8)
    requires 0x10 <= a <= 0x17
    ensures Antilog(Log(a) as int) == a
  {
    if a == 0x10 { } else if a == 0x11 { } else if a == 0x12 { } else if a == 0x13 { }
    else if a == 0x14 { } else if a == 0x15 { } else if a == 0x16 { }
    else { assert a == 0x17; }
  }

  lemma LogInverses18(a: bv8)
    requires 0x18 <= a <= 0x1f
    ensures Antilog(Log(a) as int) == a
  {
    if a == 0x18 { } else if a == 0x19 { } else if a == 0x1a { } else if a == 0x1b { }
    else if a == 0x1c { } else if a == 0x1d { } else if a == 0x1e { }
    else { assert a == 0x1f; }
  }

  lemma LogInverses20(a: bv8)
    requires 0x20 <= a <= 0x27
    ensures Antilog(Log(a) as int) == a
  {
    if a == 0x20 { } else if a == 0x21 { } else if a == 0x22 { } else if a == 0x23 { }
    else if a == 0x24 { } else if a == 0x25 { } else if a == 0x26 { }
    else { assert a == 0x27; }
  }

  lemma LogInverses28(a: bv8)
    requires 0x28 <= a <= 0x2f
    ensures Antilog(Log(a) as int) == a
  {
    if a == 0x28 { } else if a == 0x29 { } else if a == 0x2a { } else if a == 0x2b { }
    else if a == 0x2c { } else if a == 0x2d { } else if a == 0x2e { }
    else { assert a == 0x2f; }
  }

  lemma LogInverses30(a: bv8)
    requires 0x30 <= a <= 0x37
    ensures Antilog(Log(a) as int) == a
  {
    if a == 0x30 { } else if a == 0x31 { } else if a == 0x32 { } else if a == 0x33 { }
    else if a == 0x34 { } else if a == 0x35 { } else if a == 0x36 { }
    else { assert a == 0x37; }
  }

  lemma LogInverses38(a: bv8)
    requires 0x38 <= a <= 0x3f
    ensures Antilog(Log(a) as int) == a
  {
    if a == 0x38 { } else if a == 0x39 { } else if a == 0x3a { } else if a == 0x3b { }
    else if a == 0x3c { } else if a == 0x3d { } else if a == 0x3e { }
    else { assert a == 0x3f; }
  }

  lemma LogInverses40(a: bv8)
    requires 0x40 <= a <= 0x47
    ensures Antilog(Log(a) as int) == a
  {
    if a == 0x40 { } else if a == 0x41 { } else if a == 0x42 { } else if a == 0x43 { }
    else if a == 0x44 { } else if a == 0x45 { } else if a == 0x46 { }
    else { assert a == 0x47; }
  }

  lemma LogInverses48(a: bv8)
    requires 0x48 <= a <= 0x4f
    ensures Antilog(Log(a) as int) == a
  {
    if a == 0x48 { } else if a == 0x49 { } else if a == 0x4a { } else if a == 0x4b { }
    else if a == 0x4c { } else if a == 0x4d { } else if a == 0x4e { }
    else { assert a == 0x4f; }
  }

  lemma LogInverses50(a: bv8)
    requires 0x50 <= a <= 0x57
    ensures Antilog(Log(a) as int) == a
  {
    if a == 0x50 { } else if a == 0x51 { } else if a == 0x52 { } else if a == 0x53 { }
    else if a == 0x54 { } else if a == 0x55 { } else if a == 0x56 { }
    else { assert a == 0x57; }
  }

  lemma LogInverses58(a: bv8)
    requires 0x58 <= a <= 0x5f
    ensures Antilog(Log(a) as int) == a
  {
    if a == 0x58 { } else if a == 0x59 { } else if a == 0x5a { } else if a == 0x5b { }
    else if a == 0x5c { } else if a == 0x5d { } else if a == 0x5e { }
    else { assert a == 0x5f; }
  }

  lemma LogInverses60(a: bv8)
    requires 0x60 <= a <= 0x67
    ensures Antilog(Log(a) as int) == a
  {
    if a == 0x60 { } else if a == 0x61 { } else if a == 0x62 { } else if a == 0x63 { }
    else if a == 0x64 { } else if a == 0x65 { } else if a == 0x66 { }
    else { assert a == 0x67; }
  }

  lemma LogInverses68(a: bv8)
    requires 0x68 <= a <= 0x6f
    ensures Antilog(Log(a) as int) == a
  {
    if a == 0x68 { } else if a == 0x69 { } else if a == 0x6a { } else if a == 0x6b { }
    else if a == 0x6c { } else if a == 0x6d { } else if a == 0x6e { }
    else { assert a == 0x6f; }
  }

  lemma LogInverses70(a: bv8)
    requires 0x70 <= a <= 0x77
    ensures Antilog(Log(a) as int) == a
  {
    if a == 0x70 { } else if a == 0x71 { } else if a == 0x72 { } else if a == 0x73 { }
    else if a == 0x74 { } else if a == 0x75 { } else if a == 0x76 { }
    else { assert a == 0x77; }
  }

  lemma LogInverses78(a: bv8)
    requires 0x78 <= a <= 0x7f
    ensures Antilog(Log(a) as int) == a
  {
    if a == 0x78 { } else if a == 0x79 { } else if a == 0x7a { } else if a == 0x7b { }
    else if a == 0x7c { } else if a == 0x7d { } else if a == 0x7e { }
    else { assert a == 0x7f; }
  }

  lemma LogInverses80(a: bv8)
    requires 0x80 <= a <= 0x87
    ensures Antilog(Log(a) as int) == a
  {
    if a == 0x80 { } else if a == 0x81 { } else if a == 0x82 { } else if a == 0x83 { }
    else if a == 0x84 { } else if a == 0x85 { } else if a == 0x86 { }
    else { assert a == 0x87; }
  }

  lemma LogInverses88(a: bv8)
    requires 0x88 <= a <= 0x8f
    ensures Antilog(Log(a) as int) == a
  {
    if a == 0x88 { } else if a == 0x89 { } else if a == 0x8a { } else if a == 0x8b { }
    else if a == 0x8c { } else if a == 0x8d { } else if a == 0x8e { }
    else { assert a == 0x8f; }
  }

  lemma LogInverses90(a: bv8)
    requires 0x90 <= a <= 0x97
    ensures Antilog(Log(a) as int) == a
  {
    if a == 0x90 { } else if a == 0x91 { } else if a == 0x92 { } else if a == 0x93 { }
    else if a == 0x94 { } else if a == 0x95 { } else if a == 0x96 { }
    else { assert a == 0x97; }
  }

  lemma LogInverses98(a: bv8)
    requires 0x98 <= a <= 0x9f
    ensures Antilog(Log(a) as int) == a
  {
    if a == 0x98 { } else if a == 0x99 { } else if a == 0x9a { } else if a == 0x9b { }
    else if a == 0x9c { } else if a == 0x9d { } else if a == 0x9e { }
    else { assert a == 0x9f; }
  }

  lemma LogInversesA0(a: bv8)
    requires 0xa0 <= a <= 0xa7
    ensures Antilog(Log(a) as int) == a
  {
    if a == 0xa0 { } else if a == 0xa1 { } else if a == 0xa2 { } else if a == 0xa3 { }
    else if a == 0xa4 { } else if a == 0xa5 { } else if a == 0xa6 { }
    else { assert a == 0xa7; }
  }

  lemma LogInversesA8(a: bv8)
    requires 0xa8 <= a <= 0xaf
    ensures Antilog(Log(a) as int) == a
  {
    if a == 0xa8 { } else if a == 0xa9 { } else if a == 0xaa { } else if a == 0xab { }
    else if a == 0xac { } else if a == 0xad { } else if a == 0xae { }
    else { assert a == 0xaf; }
  }

  lemma LogInversesB0(a: bv8)
    requires 0xb0 <= a <= 0xb7
    ensures Antilog(Log(a) as int) == a
  {
    if a == 0xb0 { } else if a == 0xb1 { } else if a == 0xb2 { } else if a == 0xb3 { }
    else if a == 0xb4 { } else if a == 0xb5 { } else if a == 0xb6 { }
    else { assert a == 0xb7; }
  }

  lemma LogInversesB8(a: bv8)
    requires 0xb8 <= a <= 0xbf
    ensures Antilog(Log(a) as int) == a
  {
    if a == 0xb8 { } else if a == 0xb9 { } else if a == 0xba { } else if a == 0xbb { }
    else if a == 0xbc { } else if a == 0xbd { } else if a == 0xbe { }
    else { assert a == 0xbf; }
  }

  lemma LogInversesC0(a: bv8)
    requires 0xc0 <= a <= 0xc7
    ensures Antilog(Log(a) as int) == a
  {
    if a == 0xc0 { } else if a == 0xc1 { } else if a == 0xc2 { } else if a == 0xc3 { }
    else if a == 0xc4 { } else if a == 0xc5 { } else if a == 0xc6 { }
    else { assert a == 0xc7; }
  }

  lemma LogInversesC8(a: bv8)
    requires 0xc8 <= a <= 0xcf
    ensures Antilog(Log(a) as int) == a
  {
    if a == 0xc8 { } else if a == 0xc9 { } else if a == 0xca { } else if a == 0xcb { }
    else if a == 0xcc { } else if a == 0xcd { } else if a == 0xce { }
    else { assert a == 0xcf; }
  }

  lemma LogInversesD0(a: bv8)
    requires 0xd0 <= a <= 0xd7
    ensures Antilog(Log(a) as int) == a
  {
    if a == 0xd0 { } else if a == 0xd1 { } else if a == 0xd2 { } else if a == 0xd3 { }
    else if a == 0xd4 { } else if a == 0xd5 { } else if a == 0xd6 { }
    else { assert a == 0xd7; }
  }

  lemma LogInversesD8(a: bv8)
    requires 0xd8 <= a <= 0xdf
    ensures Antilog(Log(a) as int) == a
  {
    if a == 0xd8 { } else if a == 0xd9 { } else if a == 0xda { } else if a == 0xdb { }
    else if a == 0xdc { } else if a == 0xdd { } else if a == 0xde { }
    else { assert a == 0xdf; }
  }

  lemma LogInversesE0(a: bv8)
    requires 0xe0 <= a <= 0xe7
    ensures Antilog(Log(a) as int) == a
  {
    if a == 0xe0 { } else if a == 0xe1 { } else if a == 0xe2 { } else if a == 0xe3 { }
    else if a == 0xe4 { } else if a == 0xe5 { } else if a == 0xe6 { }
    else { assert a == 0xe7; }
  }

  lemma LogInversesE8(a: bv8)
    requires 0xe8 <= a <= 0xef
    ensures Antilog(Log(a) as int) == a
  {
    if a == 0xe8 { } else if a == 0xe9 { } else if a == 0xea { } else if a == 0xeb { }
    else if a == 0xec { } else if a == 0xed { } else if a == 0xee { }
    else { assert a == 0xef; }
  }

  lemma LogInversesF0(a: bv8)
    requires 0xf0 <= a <= 0xf7
    ensures Antilog(Log(a) as int) == a
  {
    if a == 0xf0 { } else if a == 0xf1 { } else if a == 0xf2 { } else if a == 0xf3 { }
    else if a == 0xf4 { } else if a == 0xf5 { } else if a == 0xf6 { }
    else { assert a == 0xf7; }
  }

  lemma LogInversesF8(a: bv8)
    requires 0xf8 <= a <= 0xff
    ensures Antilog(Log(a) as int) == a
  {
    if a == 0xf8 { } else if a == 0xf9 { } else if a == 0xfa { } else if a == 0xfb { }
    else if a == 0xfc { } else if a == 0xfd { } else if a == 0xfe { }
    else { assert a == 0xff; }
  }
}
