/** The parser's tables. Each is written as a function that lists the indices of every entry, the
    most frequent entry last. */
module PlistTables {

  const YYFLAG := -32768
  const YYFINAL := 37
  const YYLAST := 75
  const YYNTBASE := 16
  const YYMAXDEPTH: nat := 10000
  const YYTERROR := 1

  /** The grammar's own number of a token. */
  function YyTranslate(x: nat): nat {
    if x > 263 then 30
    else if x >= 257 then x - 254
    else
      match x
      case 0 => 0
      case 40 => 12
      case 41 => 13
      case 91 => 14
      case 93 => 15
      case 123 => 10
      case 125 => 11
      case 256 => 1
      case _ => 2
  }

  /** What to do on a lookahead, or where to go after a reduction. */
  function YyTable(i: int): int {
    match i
    case 0 => 10
    case 1 | 14 | 29 | 40 | 51 | 62 => 1
    case 2 | 15 | 30 | 41 | 52 | 63 => 2
    case 3 | 16 | 31 | 42 | 53 | 64 => 3
    case 4 | 17 | 32 | 43 | 54 | 65 => 4
    case 5 | 18 | 33 | 44 | 55 | 66 => 5
    case 6 => 36
    case 7 | 20 | 35 | 46 | 57 | 68 => 7
    case 8 => 37
    case 9 | 22 | 37 | 48 | 59 | 70 => 8
    case 10 => 30
    case 11 | 24 | 39 | 50 | 61 | 72 => 9
    case 12 => 27
    case 13 => 28
    case 19 | 67 => 19
    case 23 => 31
    case 25 => 34
    case 26 | 28 => 33
    case 27 => 20
    case 34 => 6
    case 49 => 24
    case 60 => 32
    case 75 => 29
    case _ => 0
  }

  /** Which row an entry of the table belongs to. */
  function YyCheck(i: int): int {
    match i
    case 0 | 6 | 8 => 0
    case 1 | 14 | 29 | 40 | 51 | 62 => 4
    case 2 | 15 | 30 | 41 | 52 | 63 => 5
    case 3 | 16 | 31 | 42 | 53 | 64 => 6
    case 4 | 17 | 32 | 43 | 54 | 65 => 7
    case 5 | 18 | 33 | 44 | 55 | 66 => 8
    case 7 | 20 | 35 | 46 | 57 | 68 => 10
    case 9 | 22 | 37 | 48 | 59 | 70 => 12
    case 10 => 21
    case 11 | 24 | 39 | 50 | 61 | 72 => 14
    case 12 | 25 => 15
    case 13 | 34 => 9
    case 19 | 67 => 3
    case 23 => 23
    case 26 => 26
    case 27 | 75 => 11
    case 28 => 28
    case 49 | 60 => 13
    case _ => -1
  }

  /** Where the row of a state starts. */
  function YyPact(s: int): int {
    match s
    case 0 => 25
    case 7 => 16
    case 8 => 36
    case 9 => -3
    case 21 => 64
    case 23 => 58
    case 26 => 47
    case 28 => 10
    case 35 => 6
    case 36 => 8
    case _ => -32768
  }

  /** The rule a state reduces by default; 0 for none. */
  function YyDefact(s: int): int {
    match s
    case 0 => 1
    case 1 => 24
    case 2 => 26
    case 3 => 25
    case 4 => 27
    case 5 => 28
    case 6 => 3
    case 10 => 2
    case 11 => 4
    case 12 => 5
    case 13 => 6
    case 14 => 9
    case 15 => 8
    case 16 => 7
    case 17 => 11
    case 18 => 10
    case 19 => 17
    case 20 => 12
    case 22 => 14
    case 24 => 18
    case 25 => 22
    case 27 => 20
    case 29 => 13
    case 30 => 15
    case 31 => 16
    case 32 => 19
    case 33 => 23
    case 34 => 21
    case _ => 0
  }

  /** Where the column of a nonterminal starts. */
  function YyPgoto(n: int): int {
    match n
    case 1 => 0
    case 4 => -11
    case 8 => 4
    case _ => -32768
  }

  /** Where a nonterminal goes by default. */
  function YyDefgoto(n: int): int {
    match n
    case 1 => 25
    case 2 => 11
    case 3 => 21
    case 4 => 22
    case 5 => 23
    case 6 => 12
    case 7 => 13
    case 8 => 26
    case 9 => 14
    case 10 => 15
    case 11 => 16
    case 12 => 17
    case 13 => 18
    case _ => 35
  }

  /** The nonterminal a rule derives. */
  function YyR1(r: int): int {
    match r
    case 0 => 0
    case 1 | 2 | 3 => 16
    case 12 | 13 => 18
    case 14 | 15 => 19
    case 16 => 20
    case 17 => 21
    case 18 | 19 => 22
    case 20 | 21 => 23
    case 22 | 23 => 24
    case 24 => 25
    case 25 => 26
    case 26 => 27
    case 27 => 28
    case 28 => 29
    case _ => 17
  }

  /** How many symbols a rule has. */
  function YyR2(r: int): int {
    match r
    case 0 | 1 => 0
    case 12 | 15 | 16 | 18 | 20 | 23 => 2
    case 13 | 19 | 21 => 3
    case _ => 1
  }
}
