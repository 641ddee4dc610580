/**
 * The neighbour pairs the source's test suite checks, each derived level by
 * level from the tables: a symbol off the border steps within its parent, a
 * border symbol steps the parent first, and a one-symbol id wraps or stops.
 * The opposite direction follows from the round trip.
 */
module AdjacentExamples {
  import opened Wrappers
  import opened Alphabet
  import opened Navigation

  /** The neighbour symbol of `c`, read off the tables through its alphabet position `k`. */
  lemma ShiftVia(d: Direction, parity: nat, k: int, j: int, c: char, c': char)
    requires parity < 2 && 0 <= k < |Base| && 0 <= j < |Base|
    requires Base[k] == c && Positions(Opposite(d), parity)[k] == j && Base[j] == c'
    ensures Shift(d, parity, c) == Some(c')
  {
    ShiftAt(d, parity, k);
  }

  /** Appending a symbol off the border to a parent `r` gives the neighbour that appends its neighbour symbol. */
  lemma WithinVia(r: string, c: char, d: Direction, parity: nat, half: nat, c': char)
    requires parity < 2 && |r| + 1 == 2 * half + parity
    requires !IsEdge(d, parity, c) && Shift(d, parity, c) == Some(c')
    ensures Adjacent(r + [c], d) == Success(Some(r + [c']))
  {
    var h := r + [c];
    HalfParity(|h|, half, parity);
    assert h[..|h| - 1] == r && h[|h| - 1] == c;
    StepWithin(h, d, c');
  }

  /** Appending a border symbol to a parent `r` whose neighbour is `p` gives `p` with the neighbour symbol appended. */
  lemma AcrossVia(r: string, c: char, d: Direction, parity: nat, half: nat, c': char, p: string)
    requires |r| > 0 && parity < 2 && |r| + 1 == 2 * half + parity
    requires IsEdge(d, parity, c) && Shift(d, parity, c) == Some(c')
    requires Adjacent(r, d) == Success(Some(p))
    ensures Adjacent(r + [c], d) == Success(Some(p + [c']))
  {
    var h := r + [c];
    HalfParity(|h|, half, parity);
    assert h[..|h| - 1] == r && h[|h| - 1] == c;
    StepAcross(h, d, c', Some(p));
  }

  /** A length written as twice a half plus a parity has that parity. */
  lemma HalfParity(n: nat, half: nat, parity: nat)
    requires parity < 2 && n == 2 * half + parity
    ensures n % 2 == parity
  {
  }

  /** The northern neighbours the test suite checks. */
  lemma NorthTests()
    ensures Adjacent("gy", North) == Success(Some("gz"))
    ensures Adjacent("gv", North) == Success(Some("gy"))
    ensures Adjacent("gu", North) == Success(Some("gv"))
    ensures Adjacent("gg", North) == Success(Some("gu"))
    ensures Adjacent("gf", North) == Success(Some("gg"))
    ensures Adjacent("gc", North) == Success(Some("gf"))
    ensures Adjacent("gb", North) == Success(Some("gc"))
    ensures Adjacent("ez", North) == Success(Some("gb"))
    ensures Adjacent("7", North) == Success(Some("e"))
    ensures Adjacent("7r", North) == Success(Some("e2"))
    ensures Adjacent("7ru", North) == Success(Some("e2h"))
    ensures Adjacent("7rux", North) == Success(Some("e2h8"))
    ensures Adjacent("7ruxg", North) == Success(Some("e2h85"))
    ensures Adjacent("e2heg", North) == Success(Some("e2hs5"))
    ensures Adjacent("e2hee", North) == Success(Some("e2heg"))
    ensures Adjacent("e2he7", North) == Success(Some("e2hee"))
    ensures Adjacent("e2he5", North) == Success(Some("e2he7"))
    ensures Adjacent("e2hdg", North) == Success(Some("e2he5"))
  {
    NorthOfGy();
    NorthOfGv();
    NorthOfGu();
    NorthOfGg();
    NorthOfGf();
    NorthOfGc();
    NorthOfGb();
    NorthOfEz();
    NorthOf7();
    NorthOf7r();
    NorthOf7ru();
    NorthOf7rux();
    NorthOf7ruxg();
    NorthOfE2heg();
    NorthOfE2hee();
    NorthOfE2he7();
    NorthOfE2he5();
    NorthOfE2hdg();
  }

  /** The southern neighbours the test suite checks, each the inverse of a northern one. */
  lemma SouthTests()
    ensures Adjacent("gz", South) == Success(Some("gy"))
    ensures Adjacent("gy", South) == Success(Some("gv"))
    ensures Adjacent("gv", South) == Success(Some("gu"))
    ensures Adjacent("gu", South) == Success(Some("gg"))
    ensures Adjacent("gg", South) == Success(Some("gf"))
    ensures Adjacent("gf", South) == Success(Some("gc"))
    ensures Adjacent("gc", South) == Success(Some("gb"))
    ensures Adjacent("gb", South) == Success(Some("ez"))
    ensures Adjacent("e", South) == Success(Some("7"))
    ensures Adjacent("e2", South) == Success(Some("7r"))
    ensures Adjacent("e2h", South) == Success(Some("7ru"))
    ensures Adjacent("e2h8", South) == Success(Some("7rux"))
    ensures Adjacent("e2h85", South) == Success(Some("7ruxg"))
    ensures Adjacent("e2hs5", South) == Success(Some("e2heg"))
    ensures Adjacent("e2heg", South) == Success(Some("e2hee"))
    ensures Adjacent("e2hee", South) == Success(Some("e2he7"))
    ensures Adjacent("e2he7", South) == Success(Some("e2he5"))
    ensures Adjacent("e2he5", South) == Success(Some("e2hdg"))
  {
    NorthOfGy();
    RoundTrip("gy", "gz", North);
    NorthOfGv();
    RoundTrip("gv", "gy", North);
    NorthOfGu();
    RoundTrip("gu", "gv", North);
    NorthOfGg();
    RoundTrip("gg", "gu", North);
    NorthOfGf();
    RoundTrip("gf", "gg", North);
    NorthOfGc();
    RoundTrip("gc", "gf", North);
    NorthOfGb();
    RoundTrip("gb", "gc", North);
    NorthOfEz();
    RoundTrip("ez", "gb", North);
    NorthOf7();
    RoundTrip("7", "e", North);
    NorthOf7r();
    RoundTrip("7r", "e2", North);
    NorthOf7ru();
    RoundTrip("7ru", "e2h", North);
    NorthOf7rux();
    RoundTrip("7rux", "e2h8", North);
    NorthOf7ruxg();
    RoundTrip("7ruxg", "e2h85", North);
    NorthOfE2heg();
    RoundTrip("e2heg", "e2hs5", North);
    NorthOfE2hee();
    RoundTrip("e2hee", "e2heg", North);
    NorthOfE2he7();
    RoundTrip("e2he7", "e2hee", North);
    NorthOfE2he5();
    RoundTrip("e2he5", "e2he7", North);
    NorthOfE2hdg();
    RoundTrip("e2hdg", "e2he5", North);
  }

  /** The eastern neighbours the test suite checks. */
  lemma EastTests()
    ensures Adjacent("2", East) == Success(Some("3"))
    ensures Adjacent("3", East) == Success(Some("6"))
    ensures Adjacent("6", East) == Success(Some("7"))
    ensures Adjacent("7", East) == Success(Some("k"))
    ensures Adjacent("k", East) == Success(Some("m"))
    ensures Adjacent("m", East) == Success(Some("q"))
    ensures Adjacent("q", East) == Success(Some("r"))
    ensures Adjacent("r", East) == Success(Some("2"))
    ensures Adjacent("7y", East) == Success(Some("kn"))
    ensures Adjacent("7w", East) == Success(Some("7y"))
    ensures Adjacent("7q", East) == Success(Some("7w"))
    ensures Adjacent("7n", East) == Success(Some("7q"))
  {
    EastOf2();
    EastOf3();
    EastOf6();
    EastOf7();
    EastOfK();
    EastOfM();
    EastOfQ();
    EastOfR();
    EastOf7y();
    EastOf7w();
    EastOf7q();
    EastOf7n();
  }

  /** The western neighbours the test suite checks; all but the last invert an eastern one. */
  lemma WestTests()
    ensures Adjacent("3", West) == Success(Some("2"))
    ensures Adjacent("6", West) == Success(Some("3"))
    ensures Adjacent("7", West) == Success(Some("6"))
    ensures Adjacent("k", West) == Success(Some("7"))
    ensures Adjacent("m", West) == Success(Some("k"))
    ensures Adjacent("q", West) == Success(Some("m"))
    ensures Adjacent("r", West) == Success(Some("q"))
    ensures Adjacent("2", West) == Success(Some("r"))
    ensures Adjacent("7y", West) == Success(Some("7w"))
    ensures Adjacent("7w", West) == Success(Some("7q"))
    ensures Adjacent("7q", West) == Success(Some("7n"))
    ensures Adjacent("7n", West) == Success(Some("6y"))
  {
    EastOf2();
    RoundTrip("2", "3", East);
    EastOf3();
    RoundTrip("3", "6", East);
    WestOf7();
    EastOf7();
    RoundTrip("7", "k", East);
    EastOfK();
    RoundTrip("k", "m", East);
    EastOfM();
    RoundTrip("m", "q", East);
    EastOfQ();
    RoundTrip("q", "r", East);
    EastOfR();
    RoundTrip("r", "2", East);
    EastOf7w();
    RoundTrip("7w", "7y", East);
    EastOf7q();
    RoundTrip("7q", "7w", East);
    EastOf7n();
    RoundTrip("7n", "7q", East);
    WestOf7n();
  }


  // One lemma per cell and direction, each resting on its parent's lemma when the step crosses a border.

  lemma NorthOfGy()
    ensures Adjacent("gy", North) == Success(Some("gz"))
  {
    ShiftNorthEvenY();
    WithinVia("g", 'y', North, 0, 1, 'z');
    assert "g" + ['y'] == "gy" && "g" + ['z'] == "gz";
  }

  lemma NorthOfGv()
    ensures Adjacent("gv", North) == Success(Some("gy"))
  {
    ShiftNorthEvenV();
    WithinVia("g", 'v', North, 0, 1, 'y');
    assert "g" + ['v'] == "gv" && "g" + ['y'] == "gy";
  }

  lemma NorthOfGu()
    ensures Adjacent("gu", North) == Success(Some("gv"))
  {
    ShiftNorthEvenU();
    WithinVia("g", 'u', North, 0, 1, 'v');
    assert "g" + ['u'] == "gu" && "g" + ['v'] == "gv";
  }

  lemma NorthOfGg()
    ensures Adjacent("gg", North) == Success(Some("gu"))
  {
    ShiftNorthEvenG();
    WithinVia("g", 'g', North, 0, 1, 'u');
    assert "g" + ['g'] == "gg" && "g" + ['u'] == "gu";
  }

  lemma NorthOfGf()
    ensures Adjacent("gf", North) == Success(Some("gg"))
  {
    ShiftNorthEvenF();
    WithinVia("g", 'f', North, 0, 1, 'g');
    assert "g" + ['f'] == "gf" && "g" + ['g'] == "gg";
  }

  lemma NorthOfGc()
    ensures Adjacent("gc", North) == Success(Some("gf"))
  {
    ShiftNorthEvenC();
    WithinVia("g", 'c', North, 0, 1, 'f');
    assert "g" + ['c'] == "gc" && "g" + ['f'] == "gf";
  }

  lemma NorthOfGb()
    ensures Adjacent("gb", North) == Success(Some("gc"))
  {
    ShiftNorthEvenB();
    WithinVia("g", 'b', North, 0, 1, 'c');
    assert "g" + ['b'] == "gb" && "g" + ['c'] == "gc";
  }

  lemma NorthOfE()
    ensures Adjacent("e", North) == Success(Some("g"))
  {
    ShiftNorthOddE();
    WithinVia("", 'e', North, 1, 0, 'g');
    assert "" + ['e'] == "e" && "" + ['g'] == "g";
  }

  lemma NorthOfEz()
    ensures Adjacent("ez", North) == Success(Some("gb"))
  {
    ShiftNorthEvenZ();
    NorthOfE();
    AcrossVia("e", 'z', North, 0, 1, 'b', "g");
    assert "e" + ['z'] == "ez" && "g" + ['b'] == "gb";
  }

  lemma NorthOf7()
    ensures Adjacent("7", North) == Success(Some("e"))
  {
    ShiftNorthOdd7();
    WithinVia("", '7', North, 1, 0, 'e');
    assert "" + ['7'] == "7" && "" + ['e'] == "e";
  }

  lemma NorthOf7r()
    ensures Adjacent("7r", North) == Success(Some("e2"))
  {
    ShiftNorthEvenR();
    NorthOf7();
    AcrossVia("7", 'r', North, 0, 1, '2', "e");
    assert "7" + ['r'] == "7r" && "e" + ['2'] == "e2";
  }

  lemma NorthOf7ru()
    ensures Adjacent("7ru", North) == Success(Some("e2h"))
  {
    ShiftNorthOddU();
    NorthOf7r();
    AcrossVia("7r", 'u', North, 1, 1, 'h', "e2");
    assert "7r" + ['u'] == "7ru" && "e2" + ['h'] == "e2h";
  }

  lemma NorthOf7rux()
    ensures Adjacent("7rux", North) == Success(Some("e2h8"))
  {
    ShiftNorthEvenX();
    NorthOf7ru();
    AcrossVia("7ru", 'x', North, 0, 2, '8', "e2h");
    assert "7ru" + ['x'] == "7rux" && "e2h" + ['8'] == "e2h8";
  }

  lemma NorthOf7ruxg()
    ensures Adjacent("7ruxg", North) == Success(Some("e2h85"))
  {
    ShiftNorthOddG();
    NorthOf7rux();
    AcrossVia("7rux", 'g', North, 1, 2, '5', "e2h8");
    assert "7rux" + ['g'] == "7ruxg" && "e2h8" + ['5'] == "e2h85";
  }

  lemma NorthOfE2he()
    ensures Adjacent("e2he", North) == Success(Some("e2hs"))
  {
    ShiftNorthEvenE();
    WithinVia("e2h", 'e', North, 0, 2, 's');
    assert "e2h" + ['e'] == "e2he" && "e2h" + ['s'] == "e2hs";
  }

  lemma NorthOfE2heg()
    ensures Adjacent("e2heg", North) == Success(Some("e2hs5"))
  {
    ShiftNorthOddG();
    NorthOfE2he();
    AcrossVia("e2he", 'g', North, 1, 2, '5', "e2hs");
    assert "e2he" + ['g'] == "e2heg" && "e2hs" + ['5'] == "e2hs5";
  }

  lemma NorthOfE2hee()
    ensures Adjacent("e2hee", North) == Success(Some("e2heg"))
  {
    ShiftNorthOddE();
    WithinVia("e2he", 'e', North, 1, 2, 'g');
    assert "e2he" + ['e'] == "e2hee" && "e2he" + ['g'] == "e2heg";
  }

  lemma NorthOfE2he7()
    ensures Adjacent("e2he7", North) == Success(Some("e2hee"))
  {
    ShiftNorthOdd7();
    WithinVia("e2he", '7', North, 1, 2, 'e');
    assert "e2he" + ['7'] == "e2he7" && "e2he" + ['e'] == "e2hee";
  }

  lemma NorthOfE2he5()
    ensures Adjacent("e2he5", North) == Success(Some("e2he7"))
  {
    ShiftNorthOdd5();
    WithinVia("e2he", '5', North, 1, 2, '7');
    assert "e2he" + ['5'] == "e2he5" && "e2he" + ['7'] == "e2he7";
  }

  lemma NorthOfE2hd()
    ensures Adjacent("e2hd", North) == Success(Some("e2he"))
  {
    ShiftNorthEvenD();
    WithinVia("e2h", 'd', North, 0, 2, 'e');
    assert "e2h" + ['d'] == "e2hd" && "e2h" + ['e'] == "e2he";
  }

  lemma NorthOfE2hdg()
    ensures Adjacent("e2hdg", North) == Success(Some("e2he5"))
  {
    ShiftNorthOddG();
    NorthOfE2hd();
    AcrossVia("e2hd", 'g', North, 1, 2, '5', "e2he");
    assert "e2hd" + ['g'] == "e2hdg" && "e2he" + ['5'] == "e2he5";
  }

  lemma EastOf2()
    ensures Adjacent("2", East) == Success(Some("3"))
  {
    ShiftEastOdd2();
    WithinVia("", '2', East, 1, 0, '3');
    assert "" + ['2'] == "2" && "" + ['3'] == "3";
  }

  lemma EastOf3()
    ensures Adjacent("3", East) == Success(Some("6"))
  {
    ShiftEastOdd3();
    WithinVia("", '3', East, 1, 0, '6');
    assert "" + ['3'] == "3" && "" + ['6'] == "6";
  }

  lemma EastOf6()
    ensures Adjacent("6", East) == Success(Some("7"))
  {
    ShiftEastOdd6();
    WithinVia("", '6', East, 1, 0, '7');
    assert "" + ['6'] == "6" && "" + ['7'] == "7";
  }

  lemma EastOf7()
    ensures Adjacent("7", East) == Success(Some("k"))
  {
    ShiftEastOdd7();
    WithinVia("", '7', East, 1, 0, 'k');
    assert "" + ['7'] == "7" && "" + ['k'] == "k";
  }

  lemma EastOfK()
    ensures Adjacent("k", East) == Success(Some("m"))
  {
    ShiftEastOddK();
    WithinVia("", 'k', East, 1, 0, 'm');
    assert "" + ['k'] == "k" && "" + ['m'] == "m";
  }

  lemma EastOfM()
    ensures Adjacent("m", East) == Success(Some("q"))
  {
    ShiftEastOddM();
    WithinVia("", 'm', East, 1, 0, 'q');
    assert "" + ['m'] == "m" && "" + ['q'] == "q";
  }

  lemma EastOfQ()
    ensures Adjacent("q", East) == Success(Some("r"))
  {
    ShiftEastOddQ();
    WithinVia("", 'q', East, 1, 0, 'r');
    assert "" + ['q'] == "q" && "" + ['r'] == "r";
  }

  lemma EastOfR()
    ensures Adjacent("r", East) == Success(Some("2"))
  {
    ShiftEastOddR();
    StepFromTop('r', East, '2');
    assert "r" == ['r'] && "2" == ['2'];
  }

  lemma EastOf7y()
    ensures Adjacent("7y", East) == Success(Some("kn"))
  {
    ShiftEastEvenY();
    EastOf7();
    AcrossVia("7", 'y', East, 0, 1, 'n', "k");
    assert "7" + ['y'] == "7y" && "k" + ['n'] == "kn";
  }

  lemma EastOf7w()
    ensures Adjacent("7w", East) == Success(Some("7y"))
  {
    ShiftEastEvenW();
    WithinVia("7", 'w', East, 0, 1, 'y');
    assert "7" + ['w'] == "7w" && "7" + ['y'] == "7y";
  }

  lemma EastOf7q()
    ensures Adjacent("7q", East) == Success(Some("7w"))
  {
    ShiftEastEvenQ();
    WithinVia("7", 'q', East, 0, 1, 'w');
    assert "7" + ['q'] == "7q" && "7" + ['w'] == "7w";
  }

  lemma EastOf7n()
    ensures Adjacent("7n", East) == Success(Some("7q"))
  {
    ShiftEastEvenN();
    WithinVia("7", 'n', East, 0, 1, 'q');
    assert "7" + ['n'] == "7n" && "7" + ['q'] == "7q";
  }

  lemma WestOf7()
    ensures Adjacent("7", West) == Success(Some("6"))
  {
    ShiftWestOdd7();
    WithinVia("", '7', West, 1, 0, '6');
    assert "" + ['7'] == "7" && "" + ['6'] == "6";
  }

  lemma WestOf7n()
    ensures Adjacent("7n", West) == Success(Some("6y"))
  {
    ShiftWestEvenN();
    WestOf7();
    AcrossVia("7", 'n', West, 0, 1, 'y', "6");
    assert "7" + ['n'] == "7n" && "6" + ['y'] == "6y";
  }

  // The table entries the steps above use: the neighbour symbol, and whether the symbol is an edge case.

  lemma ShiftNorthEvenY()
    ensures Shift(North, 0, 'y') == Some('z')
    ensures !IsEdge(North, 0, 'y')
  {
    ShiftVia(North, 0, 30, 31, 'y', 'z');
  }

  lemma ShiftNorthEvenV()
    ensures Shift(North, 0, 'v') == Some('y')
    ensures !IsEdge(North, 0, 'v')
  {
    ShiftVia(North, 0, 27, 30, 'v', 'y');
  }

  lemma ShiftNorthEvenU()
    ensures Shift(North, 0, 'u') == Some('v')
    ensures !IsEdge(North, 0, 'u')
  {
    ShiftVia(North, 0, 26, 27, 'u', 'v');
  }

  lemma ShiftNorthEvenG()
    ensures Shift(North, 0, 'g') == Some('u')
    ensures !IsEdge(North, 0, 'g')
  {
    ShiftVia(North, 0, 15, 26, 'g', 'u');
  }

  lemma ShiftNorthEvenF()
    ensures Shift(North, 0, 'f') == Some('g')
    ensures !IsEdge(North, 0, 'f')
  {
    ShiftVia(North, 0, 14, 15, 'f', 'g');
  }

  lemma ShiftNorthEvenC()
    ensures Shift(North, 0, 'c') == Some('f')
    ensures !IsEdge(North, 0, 'c')
  {
    ShiftVia(North, 0, 11, 14, 'c', 'f');
  }

  lemma ShiftNorthEvenB()
    ensures Shift(North, 0, 'b') == Some('c')
    ensures !IsEdge(North, 0, 'b')
  {
    ShiftVia(North, 0, 10, 11, 'b', 'c');
  }

  lemma ShiftNorthEvenZ()
    ensures Shift(North, 0, 'z') == Some('b')
    ensures IsEdge(North, 0, 'z')
  {
    ShiftVia(North, 0, 31, 10, 'z', 'b');
  }

  lemma ShiftNorthOddE()
    ensures Shift(North, 1, 'e') == Some('g')
    ensures !IsEdge(North, 1, 'e')
  {
    ShiftVia(North, 1, 13, 15, 'e', 'g');
  }

  lemma ShiftNorthOdd7()
    ensures Shift(North, 1, '7') == Some('e')
    ensures !IsEdge(North, 1, '7')
  {
    ShiftVia(North, 1, 7, 13, '7', 'e');
  }

  lemma ShiftNorthEvenR()
    ensures Shift(North, 0, 'r') == Some('2')
    ensures IsEdge(North, 0, 'r')
  {
    ShiftVia(North, 0, 23, 2, 'r', '2');
  }

  lemma ShiftNorthOddU()
    ensures Shift(North, 1, 'u') == Some('h')
    ensures IsEdge(North, 1, 'u')
  {
    ShiftVia(North, 1, 26, 16, 'u', 'h');
  }

  lemma ShiftNorthEvenX()
    ensures Shift(North, 0, 'x') == Some('8')
    ensures IsEdge(North, 0, 'x')
  {
    ShiftVia(North, 0, 29, 8, 'x', '8');
  }

  lemma ShiftNorthOddG()
    ensures Shift(North, 1, 'g') == Some('5')
    ensures IsEdge(North, 1, 'g')
  {
    ShiftVia(North, 1, 15, 5, 'g', '5');
  }

  lemma ShiftNorthEvenE()
    ensures Shift(North, 0, 'e') == Some('s')
    ensures !IsEdge(North, 0, 'e')
  {
    ShiftVia(North, 0, 13, 24, 'e', 's');
  }

  lemma ShiftNorthOdd5()
    ensures Shift(North, 1, '5') == Some('7')
    ensures !IsEdge(North, 1, '5')
  {
    ShiftVia(North, 1, 5, 7, '5', '7');
  }

  lemma ShiftNorthEvenD()
    ensures Shift(North, 0, 'd') == Some('e')
    ensures !IsEdge(North, 0, 'd')
  {
    ShiftVia(North, 0, 12, 13, 'd', 'e');
  }

  lemma ShiftEastOdd2()
    ensures Shift(East, 1, '2') == Some('3')
    ensures !IsEdge(East, 1, '2')
  {
    ShiftVia(East, 1, 2, 3, '2', '3');
  }

  lemma ShiftEastOdd3()
    ensures Shift(East, 1, '3') == Some('6')
    ensures !IsEdge(East, 1, '3')
  {
    ShiftVia(East, 1, 3, 6, '3', '6');
  }

  lemma ShiftEastOdd6()
    ensures Shift(East, 1, '6') == Some('7')
    ensures !IsEdge(East, 1, '6')
  {
    ShiftVia(East, 1, 6, 7, '6', '7');
  }

  lemma ShiftEastOdd7()
    ensures Shift(East, 1, '7') == Some('k')
    ensures !IsEdge(East, 1, '7')
  {
    ShiftVia(East, 1, 7, 18, '7', 'k');
  }

  lemma ShiftEastOddK()
    ensures Shift(East, 1, 'k') == Some('m')
    ensures !IsEdge(East, 1, 'k')
  {
    ShiftVia(East, 1, 18, 19, 'k', 'm');
  }

  lemma ShiftEastOddM()
    ensures Shift(East, 1, 'm') == Some('q')
    ensures !IsEdge(East, 1, 'm')
  {
    ShiftVia(East, 1, 19, 22, 'm', 'q');
  }

  lemma ShiftEastOddQ()
    ensures Shift(East, 1, 'q') == Some('r')
    ensures !IsEdge(East, 1, 'q')
  {
    ShiftVia(East, 1, 22, 23, 'q', 'r');
  }

  lemma ShiftEastOddR()
    ensures Shift(East, 1, 'r') == Some('2')
    ensures IsEdge(East, 1, 'r')
  {
    ShiftVia(East, 1, 23, 2, 'r', '2');
  }

  lemma ShiftEastEvenY()
    ensures Shift(East, 0, 'y') == Some('n')
    ensures IsEdge(East, 0, 'y')
  {
    ShiftVia(East, 0, 30, 20, 'y', 'n');
  }

  lemma ShiftEastEvenW()
    ensures Shift(East, 0, 'w') == Some('y')
    ensures !IsEdge(East, 0, 'w')
  {
    ShiftVia(East, 0, 28, 30, 'w', 'y');
  }

  lemma ShiftEastEvenQ()
    ensures Shift(East, 0, 'q') == Some('w')
    ensures !IsEdge(East, 0, 'q')
  {
    ShiftVia(East, 0, 22, 28, 'q', 'w');
  }

  lemma ShiftEastEvenN()
    ensures Shift(East, 0, 'n') == Some('q')
    ensures !IsEdge(East, 0, 'n')
  {
    ShiftVia(East, 0, 20, 22, 'n', 'q');
  }

  lemma ShiftWestEvenN()
    ensures Shift(West, 0, 'n') == Some('y')
    ensures IsEdge(West, 0, 'n')
  {
    ShiftVia(West, 0, 20, 30, 'n', 'y');
  }

  lemma ShiftWestOdd7()
    ensures Shift(West, 1, '7') == Some('6')
    ensures !IsEdge(West, 1, '7')
  {
    ShiftVia(West, 1, 7, 6, '7', '6');
  }
}
