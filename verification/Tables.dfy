/** The tables behind the choice of a version, and `qr_check_capacity`. */
module Tables {
  import opened Interleave

  /** Levels 1 to 4 are L, M, Q and H; versions are counted from 1, table rows from 0. */
  predicate Level(level: int) {
    1 <= level <= 4
  }

  function CapacityL(i: int): int {
    if i == 0 then 17 else if i == 1 then 32 else if i == 2 then 53 else if i == 3 then 78 else
    if i == 4 then 106 else if i == 5 then 134 else if i == 6 then 154 else if i == 7 then 192 else
    if i == 8 then 230 else if i == 9 then 271 else if i == 10 then 321 else if i == 11 then 367 else
    if i == 12 then 425 else if i == 13 then 458 else if i == 14 then 520 else if i == 15 then 586 else
    if i == 16 then 644 else if i == 17 then 718 else if i == 18 then 792 else if i == 19 then 858 else
    if i == 20 then 929 else if i == 21 then 1003 else if i == 22 then 1091 else if i == 23 then 1171 else
    if i == 24 then 1273 else if i == 25 then 1367 else if i == 26 then 1465 else if i == 27 then 1528 else
    if i == 28 then 1628 else if i == 29 then 1732 else if i == 30 then 1840 else if i == 31 then 1952 else
    if i == 32 then 2068 else if i == 33 then 2188 else if i == 34 then 2303 else if i == 35 then 2431 else
    if i == 36 then 2563 else if i == 37 then 2699 else if i == 38 then 2809 else 2953
  }

  function CapacityM(i: int): int {
    if i == 0 then 14 else if i == 1 then 26 else if i == 2 then 42 else if i == 3 then 62 else
    if i == 4 then 84 else if i == 5 then 106 else if i == 6 then 122 else if i == 7 then 152 else
    if i == 8 then 180 else if i == 9 then 213 else if i == 10 then 251 else if i == 11 then 287 else
    if i == 12 then 331 else if i == 13 then 362 else if i == 14 then 412 else if i == 15 then 450 else
    if i == 16 then 504 else if i == 17 then 560 else if i == 18 then 624 else if i == 19 then 666 else
    if i == 20 then 711 else if i == 21 then 779 else if i == 22 then 857 else if i == 23 then 911 else
    if i == 24 then 997 else if i == 25 then 1059 else if i == 26 then 1125 else if i == 27 then 1190 else
    if i == 28 then 1264 else if i == 29 then 1370 else if i == 30 then 1452 else if i == 31 then 1538 else
    if i == 32 then 1628 else if i == 33 then 1722 else if i == 34 then 1809 else if i == 35 then 1911 else
    if i == 36 then 1989 else if i == 37 then 2099 else if i == 38 then 2213 else 2331
  }

  function CapacityQ(i: int): int {
    if i == 0 then 11 else if i == 1 then 20 else if i == 2 then 32 else if i == 3 then 46 else
    if i == 4 then 60 else if i == 5 then 74 else if i == 6 then 86 else if i == 7 then 108 else
    if i == 8 then 130 else if i == 9 then 151 else if i == 10 then 177 else if i == 11 then 203 else
    if i == 12 then 241 else if i == 13 then 258 else if i == 14 then 292 else if i == 15 then 322 else
    if i == 16 then 364 else if i == 17 then 394 else if i == 18 then 442 else if i == 19 then 482 else
    if i == 20 then 509 else if i == 21 then 565 else if i == 22 then 611 else if i == 23 then 661 else
    if i == 24 then 715 else if i == 25 then 751 else if i == 26 then 805 else if i == 27 then 868 else
    if i == 28 then 908 else if i == 29 then 982 else if i == 30 then 1030 else if i == 31 then 1112 else
    if i == 32 then 1168 else if i == 33 then 1228 else if i == 34 then 1283 else if i == 35 then 1351 else
    if i == 36 then 1423 else if i == 37 then 1499 else if i == 38 then 1579 else 1663
  }

  function CapacityH(i: int): int {
    if i == 0 then 7 else if i == 1 then 14 else if i == 2 then 24 else if i == 3 then 34 else
    if i == 4 then 44 else if i == 5 then 58 else if i == 6 then 64 else if i == 7 then 84 else
    if i == 8 then 98 else if i == 9 then 119 else if i == 10 then 137 else if i == 11 then 155 else
    if i == 12 then 177 else if i == 13 then 194 else if i == 14 then 220 else if i == 15 then 250 else
    if i == 16 then 280 else if i == 17 then 310 else if i == 18 then 338 else if i == 19 then 382 else
    if i == 20 then 403 else if i == 21 then 439 else if i == 22 then 461 else if i == 23 then 511 else
    if i == 24 then 535 else if i == 25 then 593 else if i == 26 then 625 else if i == 27 then 658 else
    if i == 28 then 698 else if i == 29 then 742 else if i == 30 then 790 else if i == 31 then 842 else
    if i == 32 then 898 else if i == 33 then 958 else if i == 34 then 983 else if i == 35 then 1051 else
    if i == 36 then 1093 else if i == 37 then 1399 else if i == 38 then 1219 else 1273
  }

  /** Row i of the byte mode capacities. */
  function Capacity(i: int, level: int): int {
    if level == 1 then CapacityL(i) else if level == 2 then CapacityM(i)
    else if level == 3 then CapacityQ(i) else CapacityH(i)
  }

  function DataCodewordsL(i: int): int {
    if i == 0 then 19 else if i == 1 then 34 else if i == 2 then 55 else if i == 3 then 80 else
    if i == 4 then 108 else if i == 5 then 136 else if i == 6 then 156 else if i == 7 then 194 else
    if i == 8 then 232 else if i == 9 then 274 else if i == 10 then 324 else if i == 11 then 370 else
    if i == 12 then 428 else if i == 13 then 461 else if i == 14 then 523 else if i == 15 then 589 else
    if i == 16 then 647 else if i == 17 then 721 else if i == 18 then 795 else if i == 19 then 861 else
    if i == 20 then 932 else if i == 21 then 1006 else if i == 22 then 1094 else if i == 23 then 1174 else
    if i == 24 then 1276 else if i == 25 then 1370 else if i == 26 then 1468 else if i == 27 then 1531 else
    if i == 28 then 1631 else if i == 29 then 1735 else if i == 30 then 1843 else if i == 31 then 1955 else
    if i == 32 then 2071 else if i == 33 then 2191 else if i == 34 then 2306 else if i == 35 then 2434 else
    if i == 36 then 2566 else if i == 37 then 2702 else if i == 38 then 2812 else 2956
  }

  function DataCodewordsM(i: int): int {
    if i == 0 then 16 else if i == 1 then 28 else if i == 2 then 44 else if i == 3 then 64 else
    if i == 4 then 86 else if i == 5 then 108 else if i == 6 then 124 else if i == 7 then 154 else
    if i == 8 then 182 else if i == 9 then 216 else if i == 10 then 254 else if i == 11 then 290 else
    if i == 12 then 334 else if i == 13 then 365 else if i == 14 then 415 else if i == 15 then 453 else
    if i == 16 then 507 else if i == 17 then 563 else if i == 18 then 627 else if i == 19 then 669 else
    if i == 20 then 714 else if i == 21 then 782 else if i == 22 then 860 else if i == 23 then 914 else
    if i == 24 then 1000 else if i == 25 then 1062 else if i == 26 then 1128 else if i == 27 then 1193 else
    if i == 28 then 1267 else if i == 29 then 1373 else if i == 30 then 1455 else if i == 31 then 1541 else
    if i == 32 then 1631 else if i == 33 then 1725 else if i == 34 then 1812 else if i == 35 then 1914 else
    if i == 36 then 1992 else if i == 37 then 2102 else if i == 38 then 2216 else 2334
  }

  function DataCodewordsQ(i: int): int {
    if i == 0 then 13 else if i == 1 then 22 else if i == 2 then 34 else if i == 3 then 48 else
    if i == 4 then 62 else if i == 5 then 76 else if i == 6 then 88 else if i == 7 then 110 else
    if i == 8 then 132 else if i == 9 then 154 else if i == 10 then 180 else if i == 11 then 206 else
    if i == 12 then 244 else if i == 13 then 261 else if i == 14 then 295 else if i == 15 then 325 else
    if i == 16 then 367 else if i == 17 then 397 else if i == 18 then 445 else if i == 19 then 485 else
    if i == 20 then 512 else if i == 21 then 568 else if i == 22 then 614 else if i == 23 then 664 else
    if i == 24 then 718 else if i == 25 then 754 else if i == 26 then 808 else if i == 27 then 871 else
    if i == 28 then 911 else if i == 29 then 985 else if i == 30 then 1033 else if i == 31 then 1115 else
    if i == 32 then 1171 else if i == 33 then 1231 else if i == 34 then 1286 else if i == 35 then 1354 else
    if i == 36 then 1426 else if i == 37 then 1502 else if i == 38 then 1582 else 1666
  }

  function DataCodewordsH(i: int): int {
    if i == 0 then 9 else if i == 1 then 16 else if i == 2 then 26 else if i == 3 then 36 else
    if i == 4 then 46 else if i == 5 then 60 else if i == 6 then 66 else if i == 7 then 86 else
    if i == 8 then 100 else if i == 9 then 122 else if i == 10 then 140 else if i == 11 then 158 else
    if i == 12 then 180 else if i == 13 then 197 else if i == 14 then 223 else if i == 15 then 253 else
    if i == 16 then 283 else if i == 17 then 313 else if i == 18 then 341 else if i == 19 then 385 else
    if i == 20 then 406 else if i == 21 then 442 else if i == 22 then 464 else if i == 23 then 514 else
    if i == 24 then 538 else if i == 25 then 596 else if i == 26 then 628 else if i == 27 then 661 else
    if i == 28 then 701 else if i == 29 then 745 else if i == 30 then 793 else if i == 31 then 845 else
    if i == 32 then 901 else if i == 33 then 961 else if i == 34 then 986 else if i == 35 then 1054 else
    if i == 36 then 1096 else if i == 37 then 1142 else if i == 38 then 1222 else 1276
  }

  /** Row i of the numbers of data codewords. */
  function DataCodewords(i: int, level: int): int {
    if level == 1 then DataCodewordsL(i) else if level == 2 then DataCodewordsM(i)
    else if level == 3 then DataCodewordsQ(i) else DataCodewordsH(i)
  }

  /** All codewords of a version. */
  function TotalCodewords(v: int): nat {
    if v == 1 then 26 else if v == 2 then 44 else if v == 3 then 70 else if v == 4 then 100
    else if v == 5 then 134 else if v == 6 then 172 else if v == 7 then 196 else if v == 8 then 242
    else if v == 9 then 292 else if v == 10 then 346 else if v == 11 then 404 else if v == 12 then 466
    else if v == 13 then 532 else if v == 14 then 581 else if v == 15 then 655 else if v == 16 then 733
    else if v == 17 then 815 else if v == 18 then 901 else if v == 19 then 991 else if v == 20 then 1085
    else if v == 21 then 1156 else if v == 22 then 1258 else if v == 23 then 1364 else if v == 24 then 1474
    else if v == 25 then 1588 else if v == 26 then 1706 else if v == 27 then 1828 else if v == 28 then 1921
    else if v == 29 then 2051 else if v == 30 then 2185 else if v == 31 then 2323 else if v == 32 then 2465
    else if v == 33 then 2611 else if v == 34 then 2761 else if v == 35 then 2876 else if v == 36 then 3034
    else if v == 37 then 3196 else if v == 38 then 3362 else if v == 39 then 3532 else 3706
  }

  /** Bits that are left over behind the codewords. */
  function RemainderBits(v: int): nat {
    if 2 <= v <= 6 then 7 else if 14 <= v <= 20 || 28 <= v <= 34 then 3 else if 21 <= v <= 27 then 4 else 0
  }

  function LayoutL1(v: int): Layout {
    if v == 1 then Layout(7, 1, 19, 0)
    else if v == 2 then Layout(10, 1, 34, 0)
    else if v == 3 then Layout(15, 1, 55, 0)
    else if v == 4 then Layout(20, 1, 80, 0)
    else if v == 5 then Layout(26, 1, 108, 0)
    else if v == 6 then Layout(18, 2, 68, 0)
    else if v == 7 then Layout(20, 2, 78, 0)
    else if v == 8 then Layout(24, 2, 97, 0)
    else if v == 9 then Layout(30, 2, 116, 0)
    else Layout(18, 2, 68, 2)
  }

  function LayoutL2(v: int): Layout {
    if v == 11 then Layout(20, 4, 81, 0)
    else if v == 12 then Layout(24, 2, 92, 2)
    else if v == 13 then Layout(26, 4, 107, 0)
    else if v == 14 then Layout(30, 3, 115, 1)
    else if v == 15 then Layout(22, 5, 87, 1)
    else if v == 16 then Layout(24, 5, 98, 1)
    else if v == 17 then Layout(28, 1, 107, 5)
    else if v == 18 then Layout(30, 5, 120, 1)
    else if v == 19 then Layout(28, 3, 113, 4)
    else Layout(28, 3, 107, 5)
  }

  function LayoutL3(v: int): Layout {
    if v == 21 then Layout(28, 4, 116, 4)
    else if v == 22 then Layout(28, 2, 111, 7)
    else if v == 23 then Layout(30, 4, 121, 5)
    else if v == 24 then Layout(30, 6, 117, 4)
    else if v == 25 then Layout(26, 8, 106, 4)
    else if v == 26 then Layout(28, 10, 114, 2)
    else if v == 27 then Layout(30, 8, 122, 4)
    else if v == 28 then Layout(30, 3, 117, 10)
    else if v == 29 then Layout(30, 7, 116, 7)
    else Layout(30, 5, 115, 10)
  }

  function LayoutL4(v: int): Layout {
    if v == 31 then Layout(30, 13, 115, 3)
    else if v == 32 then Layout(30, 17, 115, 0)
    else if v == 33 then Layout(30, 17, 115, 1)
    else if v == 34 then Layout(30, 13, 115, 6)
    else if v == 35 then Layout(30, 12, 121, 7)
    else if v == 36 then Layout(30, 6, 121, 14)
    else if v == 37 then Layout(30, 17, 122, 4)
    else if v == 38 then Layout(30, 4, 122, 18)
    else if v == 39 then Layout(30, 20, 117, 4)
    else Layout(30, 19, 118, 6)
  }

  function LayoutL(v: int): Layout {
    if v <= 10 then LayoutL1(v) else if v <= 20 then LayoutL2(v)
    else if v <= 30 then LayoutL3(v) else LayoutL4(v)
  }

  function LayoutM1(v: int): Layout {
    if v == 1 then Layout(10, 1, 16, 0)
    else if v == 2 then Layout(16, 1, 28, 0)
    else if v == 3 then Layout(26, 1, 44, 0)
    else if v == 4 then Layout(18, 2, 32, 0)
    else if v == 5 then Layout(24, 2, 43, 0)
    else if v == 6 then Layout(16, 4, 27, 0)
    else if v == 7 then Layout(18, 4, 31, 0)
    else if v == 8 then Layout(22, 2, 38, 2)
    else if v == 9 then Layout(22, 3, 36, 2)
    else Layout(26, 4, 43, 1)
  }

  function LayoutM2(v: int): Layout {
    if v == 11 then Layout(30, 1, 50, 4)
    else if v == 12 then Layout(22, 6, 36, 2)
    else if v == 13 then Layout(22, 8, 37, 1)
    else if v == 14 then Layout(24, 4, 40, 5)
    else if v == 15 then Layout(24, 5, 41, 5)
    else if v == 16 then Layout(28, 7, 45, 3)
    else if v == 17 then Layout(28, 10, 46, 1)
    else if v == 18 then Layout(26, 9, 43, 4)
    else if v == 19 then Layout(26, 3, 44, 11)
    else Layout(26, 3, 41, 13)
  }

  function LayoutM3(v: int): Layout {
    if v == 21 then Layout(26, 17, 42, 0)
    else if v == 22 then Layout(28, 17, 46, 0)
    else if v == 23 then Layout(28, 4, 47, 14)
    else if v == 24 then Layout(28, 6, 45, 14)
    else if v == 25 then Layout(28, 8, 47, 13)
    else if v == 26 then Layout(28, 19, 46, 4)
    else if v == 27 then Layout(28, 22, 45, 3)
    else if v == 28 then Layout(28, 3, 45, 23)
    else if v == 29 then Layout(28, 21, 45, 7)
    else Layout(28, 19, 47, 10)
  }

  function LayoutM4(v: int): Layout {
    if v == 31 then Layout(28, 2, 46, 29)
    else if v == 32 then Layout(28, 10, 46, 23)
    else if v == 33 then Layout(28, 14, 46, 21)
    else if v == 34 then Layout(28, 14, 46, 23)
    else if v == 35 then Layout(28, 12, 47, 26)
    else if v == 36 then Layout(28, 6, 47, 34)
    else if v == 37 then Layout(28, 29, 46, 14)
    else if v == 38 then Layout(28, 13, 46, 32)
    else if v == 39 then Layout(28, 40, 47, 7)
    else Layout(28, 18, 47, 31)
  }

  function LayoutM(v: int): Layout {
    if v <= 10 then LayoutM1(v) else if v <= 20 then LayoutM2(v)
    else if v <= 30 then LayoutM3(v) else LayoutM4(v)
  }

  function LayoutQ1(v: int): Layout {
    if v == 1 then Layout(13, 1, 13, 0)
    else if v == 2 then Layout(22, 1, 22, 0)
    else if v == 3 then Layout(18, 2, 17, 0)
    else if v == 4 then Layout(26, 2, 24, 0)
    else if v == 5 then Layout(18, 2, 15, 2)
    else if v == 6 then Layout(24, 4, 19, 0)
    else if v == 7 then Layout(18, 2, 14, 4)
    else if v == 8 then Layout(22, 4, 18, 2)
    else if v == 9 then Layout(20, 4, 16, 4)
    else Layout(24, 6, 19, 2)
  }

  function LayoutQ2(v: int): Layout {
    if v == 11 then Layout(28, 4, 22, 4)
    else if v == 12 then Layout(26, 4, 20, 6)
    else if v == 13 then Layout(24, 8, 20, 4)
    else if v == 14 then Layout(20, 11, 16, 5)
    else if v == 15 then Layout(30, 5, 24, 7)
    else if v == 16 then Layout(24, 15, 19, 2)
    else if v == 17 then Layout(28, 1, 22, 15)
    else if v == 18 then Layout(28, 17, 22, 1)
    else if v == 19 then Layout(26, 17, 21, 4)
    else Layout(30, 15, 24, 5)
  }

  function LayoutQ3(v: int): Layout {
    if v == 21 then Layout(28, 17, 22, 6)
    else if v == 22 then Layout(30, 7, 24, 16)
    else if v == 23 then Layout(30, 11, 24, 14)
    else if v == 24 then Layout(30, 11, 24, 16)
    else if v == 25 then Layout(30, 7, 24, 22)
    else if v == 26 then Layout(28, 28, 22, 6)
    else if v == 27 then Layout(30, 8, 23, 26)
    else if v == 28 then Layout(30, 4, 24, 31)
    else if v == 29 then Layout(30, 1, 23, 37)
    else Layout(30, 15, 24, 25)
  }

  function LayoutQ4(v: int): Layout {
    if v == 31 then Layout(30, 42, 24, 1)
    else if v == 32 then Layout(30, 10, 24, 35)
    else if v == 33 then Layout(30, 29, 24, 19)
    else if v == 34 then Layout(30, 44, 24, 7)
    else if v == 35 then Layout(30, 39, 24, 14)
    else if v == 36 then Layout(30, 46, 24, 10)
    else if v == 37 then Layout(30, 49, 24, 10)
    else if v == 38 then Layout(30, 48, 24, 14)
    else if v == 39 then Layout(30, 43, 24, 22)
    else Layout(30, 34, 24, 34)
  }

  function LayoutQ(v: int): Layout {
    if v <= 10 then LayoutQ1(v) else if v <= 20 then LayoutQ2(v)
    else if v <= 30 then LayoutQ3(v) else LayoutQ4(v)
  }

  function LayoutH1(v: int): Layout {
    if v == 1 then Layout(17, 1, 9, 0)
    else if v == 2 then Layout(28, 1, 16, 0)
    else if v == 3 then Layout(22, 2, 13, 0)
    else if v == 4 then Layout(16, 4, 9, 0)
    else if v == 5 then Layout(22, 2, 11, 2)
    else if v == 6 then Layout(28, 4, 15, 0)
    else if v == 7 then Layout(26, 4, 13, 1)
    else if v == 8 then Layout(26, 4, 14, 2)
    else if v == 9 then Layout(24, 4, 12, 4)
    else Layout(28, 6, 15, 2)
  }

  function LayoutH2(v: int): Layout {
    if v == 11 then Layout(24, 3, 12, 8)
    else if v == 12 then Layout(28, 7, 14, 4)
    else if v == 13 then Layout(22, 12, 11, 4)
    else if v == 14 then Layout(24, 11, 12, 5)
    else if v == 15 then Layout(24, 11, 12, 7)
    else if v == 16 then Layout(30, 3, 15, 13)
    else if v == 17 then Layout(28, 2, 14, 17)
    else if v == 18 then Layout(28, 2, 14, 19)
    else if v == 19 then Layout(26, 9, 13, 16)
    else Layout(28, 15, 15, 10)
  }

  function LayoutH3(v: int): Layout {
    if v == 21 then Layout(30, 19, 16, 6)
    else if v == 22 then Layout(24, 34, 13, 0)
    else if v == 23 then Layout(30, 16, 15, 14)
    else if v == 24 then Layout(30, 30, 16, 2)
    else if v == 25 then Layout(30, 22, 15, 13)
    else if v == 26 then Layout(30, 33, 16, 4)
    else if v == 27 then Layout(30, 12, 15, 28)
    else if v == 28 then Layout(30, 11, 15, 31)
    else if v == 29 then Layout(30, 19, 15, 26)
    else Layout(30, 23, 15, 25)
  }

  function LayoutH4(v: int): Layout {
    if v == 31 then Layout(30, 23, 15, 28)
    else if v == 32 then Layout(30, 19, 15, 35)
    else if v == 33 then Layout(30, 11, 15, 46)
    else if v == 34 then Layout(30, 59, 16, 1)
    else if v == 35 then Layout(30, 22, 15, 41)
    else if v == 36 then Layout(30, 2, 15, 64)
    else if v == 37 then Layout(30, 24, 15, 46)
    else if v == 38 then Layout(30, 42, 15, 32)
    else if v == 39 then Layout(30, 10, 15, 67)
    else Layout(30, 20, 15, 61)
  }

  function LayoutH(v: int): Layout {
    if v <= 10 then LayoutH1(v) else if v <= 20 then LayoutH2(v)
    else if v <= 30 then LayoutH3(v) else LayoutH4(v)
  }

  /** The block structure of a version. */
  function LayoutOf(v: int, level: int): Layout {
    if level == 1 then LayoutL(v) else if level == 2 then LayoutM(v)
    else if level == 3 then LayoutQ(v) else LayoutH(v)
  }

  /** The blocks of a layout account for all data codewords and all codewords, and every block is
      short enough for the Reed-Solomon code. */
  predicate Accounts(l: Layout, data: int, total: int) {
    && Regular(l) && l.ecc <= 30 && l.s + 1 + l.ecc <= 255
    && DataTotal(l) == data <= 2956
    && CodeTotal(l) == total <= 3706
  }

  lemma LayoutL1Fits(v: int)
    requires 1 <= v <= 10
    ensures Accounts(LayoutL1(v), DataCodewordsL(v - 1), TotalCodewords(v))
  {
  }

  lemma LayoutL2Fits(v: int)
    requires 11 <= v <= 20
    ensures Accounts(LayoutL2(v), DataCodewordsL(v - 1), TotalCodewords(v))
  {
  }

  lemma LayoutL3Fits(v: int)
    requires 21 <= v <= 30
    ensures Accounts(LayoutL3(v), DataCodewordsL(v - 1), TotalCodewords(v))
  {
  }

  lemma LayoutL4Fits(v: int)
    requires 31 <= v <= 40
    ensures Accounts(LayoutL4(v), DataCodewordsL(v - 1), TotalCodewords(v))
  {
  }

  lemma LayoutLFits(v: int)
    requires 1 <= v <= 40
    ensures Accounts(LayoutL(v), DataCodewordsL(v - 1), TotalCodewords(v))
  {
    hide LayoutL1, LayoutL2, LayoutL3, LayoutL4, DataCodewordsL, TotalCodewords, Accounts;
    if v <= 10 {
      LayoutL1Fits(v);
    } else if v <= 20 {
      LayoutL2Fits(v);
    } else if v <= 30 {
      LayoutL3Fits(v);
    } else {
      LayoutL4Fits(v);
    }
  }

  lemma LayoutM1Fits(v: int)
    requires 1 <= v <= 10
    ensures Accounts(LayoutM1(v), DataCodewordsM(v - 1), TotalCodewords(v))
  {
  }

  lemma LayoutM2Fits(v: int)
    requires 11 <= v <= 20
    ensures Accounts(LayoutM2(v), DataCodewordsM(v - 1), TotalCodewords(v))
  {
  }

  lemma LayoutM3Fits(v: int)
    requires 21 <= v <= 30
    ensures Accounts(LayoutM3(v), DataCodewordsM(v - 1), TotalCodewords(v))
  {
  }

  lemma LayoutM4Fits(v: int)
    requires 31 <= v <= 40
    ensures Accounts(LayoutM4(v), DataCodewordsM(v - 1), TotalCodewords(v))
  {
  }

  lemma LayoutMFits(v: int)
    requires 1 <= v <= 40
    ensures Accounts(LayoutM(v), DataCodewordsM(v - 1), TotalCodewords(v))
  {
    hide LayoutM1, LayoutM2, LayoutM3, LayoutM4, DataCodewordsM, TotalCodewords, Accounts;
    if v <= 10 {
      LayoutM1Fits(v);
    } else if v <= 20 {
      LayoutM2Fits(v);
    } else if v <= 30 {
      LayoutM3Fits(v);
    } else {
      LayoutM4Fits(v);
    }
  }

  lemma LayoutQ1Fits(v: int)
    requires 1 <= v <= 10
    ensures Accounts(LayoutQ1(v), DataCodewordsQ(v - 1), TotalCodewords(v))
  {
  }

  lemma LayoutQ2Fits(v: int)
    requires 11 <= v <= 20
    ensures Accounts(LayoutQ2(v), DataCodewordsQ(v - 1), TotalCodewords(v))
  {
  }

  lemma LayoutQ3Fits(v: int)
    requires 21 <= v <= 30
    ensures Accounts(LayoutQ3(v), DataCodewordsQ(v - 1), TotalCodewords(v))
  {
  }

  lemma LayoutQ4Fits(v: int)
    requires 31 <= v <= 40
    ensures Accounts(LayoutQ4(v), DataCodewordsQ(v - 1), TotalCodewords(v))
  {
  }

  lemma LayoutQFits(v: int)
    requires 1 <= v <= 40
    ensures Accounts(LayoutQ(v), DataCodewordsQ(v - 1), TotalCodewords(v))
  {
    hide LayoutQ1, LayoutQ2, LayoutQ3, LayoutQ4, DataCodewordsQ, TotalCodewords, Accounts;
    if v <= 10 {
      LayoutQ1Fits(v);
    } else if v <= 20 {
      LayoutQ2Fits(v);
    } else if v <= 30 {
      LayoutQ3Fits(v);
    } else {
      LayoutQ4Fits(v);
    }
  }

  lemma LayoutH1Fits(v: int)
    requires 1 <= v <= 10
    ensures Accounts(LayoutH1(v), DataCodewordsH(v - 1), TotalCodewords(v))
  {
  }

  lemma LayoutH2Fits(v: int)
    requires 11 <= v <= 20
    ensures Accounts(LayoutH2(v), DataCodewordsH(v - 1), TotalCodewords(v))
  {
  }

  lemma LayoutH3Fits(v: int)
    requires 21 <= v <= 30
    ensures Accounts(LayoutH3(v), DataCodewordsH(v - 1), TotalCodewords(v))
  {
  }

  lemma LayoutH4Fits(v: int)
    requires 31 <= v <= 40
    ensures Accounts(LayoutH4(v), DataCodewordsH(v - 1), TotalCodewords(v))
  {
  }

  lemma LayoutHFits(v: int)
    requires 1 <= v <= 40
    ensures Accounts(LayoutH(v), DataCodewordsH(v - 1), TotalCodewords(v))
  {
    hide LayoutH1, LayoutH2, LayoutH3, LayoutH4, DataCodewordsH, TotalCodewords, Accounts;
    if v <= 10 {
      LayoutH1Fits(v);
    } else if v <= 20 {
      LayoutH2Fits(v);
    } else if v <= 30 {
      LayoutH3Fits(v);
    } else {
      LayoutH4Fits(v);
    }
  }

  /** In every version the blocks account for all codewords. */
  lemma LayoutFits(v: int, level: int)
    requires 1 <= v <= 40 && Level(level)
    ensures Accounts(LayoutOf(v, level), DataCodewords(v - 1, level), TotalCodewords(v))
  {
    hide LayoutL, LayoutM, LayoutQ, LayoutH, TotalCodewords, Accounts;
    hide DataCodewordsL, DataCodewordsM, DataCodewordsQ, DataCodewordsH;
    if level == 1 {
      LayoutLFits(v);
    } else if level == 2 {
      LayoutMFits(v);
    } else if level == 3 {
      LayoutQFits(v);
    } else {
      LayoutHFits(v);
    }
  }

  // ---------- The choice of a version ----------

  /** Bytes that fit: mode and terminator take one codeword, the count one, or two from version 10 on. */
  function Room(v: int, level: int): int {
    DataCodewords(v - 1, level) - (if v <= 9 then 2 else 3)
  }

  /** The capacity table agrees with the data codewords everywhere but in one entry. */
  lemma CapacityIsRoom(i: int, level: int)
    requires 0 <= i < 40 && Level(level)
    ensures Capacity(i, level) == if i == 37 && level == 4 then 1399 else Room(i + 1, level)
  {
    if level == 1 {
    } else if level == 2 {
    } else if level == 3 {
    } else {
    }
  }

  lemma RoomGrows(v: int, level: int)
    requires 1 <= v < 40 && Level(level)
    ensures Room(v, level) < Room(v + 1, level)
  {
    if level == 1 {
    } else if level == 2 {
    } else if level == 3 {
    } else {
    }
  }

  lemma {:induction false} RoomMonotone(v: int, w: int, level: int)
    requires 1 <= v <= w <= 40 && Level(level)
    ensures Room(v, level) <= Room(w, level)
    decreases w - v
  {
    if v == w {
    } else {
      RoomGrows(v, level);
      RoomMonotone(v + 1, w, level);
    }
  }

  /** The first table row that is large enough, or 40. */
  function FirstRow(bytes: int, level: int, i: int): (r: int)
    requires 0 <= i <= 40
    ensures i <= r <= 40
    ensures r < 40 ==> Capacity(r, level) >= bytes
    ensures forall k :: i <= k < r ==> Capacity(k, level) < bytes
    decreases 40 - i
  {
    if i == 40 || Capacity(i, level) >= bytes then i else FirstRow(bytes, level, i + 1)
  }

  /** The version used for `bytes` bytes when `version` was asked for; 0 if none is large enough. */
  function ChosenVersion(bytes: int, version: int, level: int): int {
    var r := FirstRow(bytes, level, 0);
    if r == 40 then 0
    else if version < r + 1 then r + 1
    else if version > 40 then 40 else version
  }

  method CheckCapacity(bytes: int, version: int, level: int) returns (chosen: int)
    ensures chosen == ChosenVersion(bytes, version, level)
  {
    var i := 0;
    while i < 40
      invariant 0 <= i <= 40
      invariant FirstRow(bytes, level, 0) == FirstRow(bytes, level, i)
    {
      if Capacity(i, level) >= bytes {
        var smallest := i + 1;
        chosen := version;
        if chosen < smallest { chosen := smallest; }
        if chosen > 40 { chosen := 40; }
        return;
      }
      i := i + 1;
    }
    chosen := 0;
  }

  /** The chosen version holds the bytes, with an exact exception: at level H the entry of version 38 is
      too large, so texts that only fit by that entry are accepted. */
  lemma ChosenVersionFits(bytes: int, version: int, level: int)
    requires Level(level)
    requires ChosenVersion(bytes, version, level) != 0
    ensures var v := ChosenVersion(bytes, version, level);
            && 1 <= v <= 40
            && (version <= 40 ==> version <= v)
            && (bytes <= Room(v, level) <==>
                !(level == 4 && bytes > (if version <= 38 then 1139 else if version == 39 then 1219 else 1273)))
  {
    var r := FirstRow(bytes, level, 0);
    var v := ChosenVersion(bytes, version, level);
    CapacityIsRoom(r, level);
    RoomMonotone(r + 1, v, level);
    if level == 4 && r < 37 {
      RoomMonotone(r + 1, 37, level);
    } else if level == 4 && r > 37 {
      CapacityIsRoom(37, level);
      RoomMonotone(r + 1, 40, level);
    }
  }

  lemma SmallVersionFits(bytes: int, version: int, level: int)
    requires Level(level)
    requires ChosenVersion(bytes, version, level) != 0 && ChosenVersion(bytes, version, level) <= 9
    ensures 1 <= ChosenVersion(bytes, version, level)
    ensures bytes <= Room(ChosenVersion(bytes, version, level), level)
  {
    var r := FirstRow(bytes, level, 0);
    var v := ChosenVersion(bytes, version, level);
    CapacityIsRoom(r, level);
    RoomMonotone(r + 1, v, level);
  }

  /** In the versions with an 8-bit count no text is too long for it. */
  lemma SmallVersionData(v: int, level: int)
    requires 1 <= v <= 9 && Level(level)
    ensures DataCodewords(v - 1, level) <= 232
  {
    if level == 1 {
    } else if level == 2 {
    } else if level == 3 {
    } else {
    }
  }

  /** A level H text that is accepted for version 38 although the version cannot hold it. */
  lemma VersionTooSmall()
    ensures ChosenVersion(1300, 1, 4) == 38 && Room(38, 4) == 1139
  {
    var r := FirstRow(1300, 4, 0);
    CapacityIsRoom(37, 4);
    assert r <= 37;
    CapacityIsRoom(r, 4);
    if r < 37 {
      RoomMonotone(r + 1, 37, 4);
    }
  }

  /** No version smaller than both the chosen one and the requested one would have held the bytes. */
  lemma ChosenVersionLeast(bytes: int, version: int, level: int, w: int)
    requires Level(level)
    requires ChosenVersion(bytes, version, level) != 0
    requires 1 <= w < ChosenVersion(bytes, version, level) && version <= w
    ensures Room(w, level) < bytes
  {
    CapacityIsRoom(w - 1, level);
  }
}
