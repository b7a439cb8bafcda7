/** The 190-character substitution table shared by both loader routines
    (the single-quoted literal `$S` in post-template.php line 667 and
    class-https.php line 124). Its first half holds the 95 printable ASCII
    characters in the literal's own order; its second half is a scrambled
    arrangement of the same 95 characters. In the PHP literal `\?` and `\s`
    keep their backslash (single quotes only unescape `\'` and `\\`), so the
    backslash is one of the 95 characters of each half.

    The halves are written as two lookup functions rather than one string
    literal so that the verifier can read any entry directly; `Table()` is the
    190-character string they spell. Each lookup splits its range in halves
    before matching a handful of cases, so that a proof about one entry only
    ever weighs a few alternatives. */
module Alphabet {
  import opened Wrappers
  import opened Php

  /** Number of distinct symbols: the size of each half of the table. */
  const Size := 95

  /** Entry `j` of the first half of the table. */
  function PlainHalf(j: int): char
  {
    if j < 47 then
      if j < 23 then
        if j < 11 then
          if j < 5 then
            match j
              case 0 => '!'
              case 1 => '#'
              case 2 => '$'
              case 3 => '%'
              case 4 => '&'
              case _ => ' '
          else
            match j
              case 5 => '('
              case 6 => ')'
              case 7 => '*'
              case 8 => '+'
              case 9 => ','
              case 10 => '-'
              case _ => ' '
        else
          if j < 17 then
            match j
              case 11 => '.'
              case 12 => '/'
              case 13 => '0'
              case 14 => '1'
              case 15 => '2'
              case 16 => '3'
              case _ => ' '
          else
            match j
              case 17 => '4'
              case 18 => '5'
              case 19 => '6'
              case 20 => '7'
              case 21 => '8'
              case 22 => '9'
              case _ => ' '
      else
        if j < 35 then
          if j < 29 then
            match j
              case 23 => ':'
              case 24 => ';'
              case 25 => '<'
              case 26 => '='
              case 27 => '>'
              case 28 => '\\'
              case _ => ' '
          else
            match j
              case 29 => '?'
              case 30 => '@'
              case 31 => 'A'
              case 32 => 'B'
              case 33 => 'C'
              case 34 => 'D'
              case _ => ' '
        else
          if j < 41 then
            match j
              case 35 => 'E'
              case 36 => 'F'
              case 37 => 'G'
              case 38 => 'H'
              case 39 => 'I'
              case 40 => 'J'
              case _ => ' '
          else
            match j
              case 41 => 'K'
              case 42 => 'L'
              case 43 => 'M'
              case 44 => 'N'
              case 45 => 'O'
              case 46 => 'P'
              case _ => ' '
    else
      if j < 71 then
        if j < 59 then
          if j < 53 then
            match j
              case 47 => 'Q'
              case 48 => 'R'
              case 49 => 'S'
              case 50 => 'T'
              case 51 => 'U'
              case 52 => 'V'
              case _ => ' '
          else
            match j
              case 53 => 'W'
              case 54 => 'X'
              case 55 => 'Y'
              case 56 => 'Z'
              case 57 => '['
              case 58 => ']'
              case _ => ' '
        else
          if j < 65 then
            match j
              case 59 => '^'
              case 60 => '_'
              case 61 => '`'
              case 62 => ' '
              case 63 => '\''
              case 64 => '\"'
              case _ => ' '
          else
            match j
              case 65 => 'a'
              case 66 => 'b'
              case 67 => 'c'
              case 68 => 'd'
              case 69 => 'e'
              case 70 => 'f'
              case _ => ' '
      else
        if j < 83 then
          if j < 77 then
            match j
              case 71 => 'g'
              case 72 => 'h'
              case 73 => 'i'
              case 74 => 'j'
              case 75 => 'k'
              case 76 => 'l'
              case _ => ' '
          else
            match j
              case 77 => 'm'
              case 78 => 'n'
              case 79 => 'o'
              case 80 => 'p'
              case 81 => 'q'
              case 82 => 'r'
              case _ => ' '
        else
          if j < 89 then
            match j
              case 83 => 's'
              case 84 => 't'
              case 85 => 'u'
              case 86 => 'v'
              case 87 => 'w'
              case 88 => 'x'
              case _ => ' '
          else
            match j
              case 89 => 'y'
              case 90 => 'z'
              case 91 => '{'
              case 92 => '|'
              case 93 => '}'
              case 94 => '~'
              case _ => ' '
  }

  /** Entry `j` of the second half of the table (table index `95 + j`). */
  function ScrambledHalf(j: int): char
  {
    if j < 47 then
      if j < 23 then
        if j < 11 then
          if j < 5 then
            match j
              case 0 => 'f'
              case 1 => '^'
              case 2 => 'j'
              case 3 => 'A'
              case 4 => 'E'
              case _ => ' '
          else
            match j
              case 5 => ']'
              case 6 => 'o'
              case 7 => 'k'
              case 8 => 'I'
              case 9 => '\''
              case 10 => 'O'
              case _ => ' '
        else
          if j < 17 then
            match j
              case 11 => 'z'
              case 12 => 'U'
              case 13 => '['
              case 14 => '2'
              case 15 => '&'
              case 16 => 'q'
              case _ => ' '
          else
            match j
              case 17 => '1'
              case 18 => '{'
              case 19 => '3'
              case 20 => '`'
              case 21 => 'h'
              case 22 => '5'
              case _ => ' '
      else
        if j < 35 then
          if j < 29 then
            match j
              case 23 => 'w'
              case 24 => '_'
              case 25 => '7'
              case 26 => '9'
              case 27 => '\"'
              case 28 => '4'
              case _ => ' '
          else
            match j
              case 29 => 'p'
              case 30 => '@'
              case 31 => '6'
              case 32 => '\\'
              case 33 => 's'
              case 34 => '8'
              case _ => ' '
        else
          if j < 41 then
            match j
              case 35 => '?'
              case 36 => 'B'
              case 37 => 'g'
              case 38 => 'P'
              case 39 => '>'
              case 40 => 'd'
              case _ => ' '
          else
            match j
              case 41 => 'F'
              case 42 => 'V'
              case 43 => '='
              case 44 => 'm'
              case 45 => 'D'
              case 46 => '<'
              case _ => ' '
    else
      if j < 71 then
        if j < 59 then
          if j < 53 then
            match j
              case 47 => 'T'
              case 48 => 'c'
              case 49 => 'S'
              case 50 => '%'
              case 51 => 'Z'
              case 52 => 'e'
              case _ => ' '
          else
            match j
              case 53 => '|'
              case 54 => 'r'
              case 55 => ':'
              case 56 => 'l'
              case 57 => 'G'
              case 58 => 'K'
              case _ => ' '
        else
          if j < 65 then
            match j
              case 59 => '/'
              case 60 => 'u'
              case 61 => 'C'
              case 62 => 'y'
              case 63 => '.'
              case 64 => 'J'
              case _ => ' '
          else
            match j
              case 65 => 'x'
              case 66 => ')'
              case 67 => 'H'
              case 68 => 'i'
              case 69 => 'Q'
              case 70 => '!'
              case _ => ' '
      else
        if j < 83 then
          if j < 77 then
            match j
              case 71 => ' '
              case 72 => '#'
              case 73 => '$'
              case 74 => '~'
              case 75 => '('
              case 76 => ';'
              case _ => ' '
          else
            match j
              case 77 => 'L'
              case 78 => 't'
              case 79 => '-'
              case 80 => 'R'
              case 81 => '}'
              case 82 => 'M'
              case _ => ' '
        else
          if j < 89 then
            match j
              case 83 => 'a'
              case 84 => ','
              case 85 => 'N'
              case 86 => 'v'
              case 87 => 'W'
              case 88 => '+'
              case _ => ' '
          else
            match j
              case 89 => 'Y'
              case 90 => 'n'
              case 91 => 'b'
              case 92 => '*'
              case 93 => '0'
              case 94 => 'X'
              case _ => ' '
  }

  function TableAt(k: int): char
  {
    if 0 <= k < Size then PlainHalf(k) else ScrambledHalf(k - Size)
  }

  /** The table literal `$S`: 190 characters, both halves back to back. */
  function Table(): (t: string)
    ensures |t| == 2 * Size
  {
    seq(2 * Size, k => TableAt(k))
  }

  /** Printable ASCII, the characters with codes 32 to 126. */
  predicate Printable(c: char)
  {
    ' ' <= c <= '~'
  }

  /** The index in the first half of the character with the given code, or -1 for a code that is not printable ASCII. */
  function PlainIndex(code: int): int
  {
    if code < 79 then
      if code < 55 then
        if code < 43 then
          if code < 37 then
            match code
              case 32 => 62
              case 33 => 0
              case 34 => 64
              case 35 => 1
              case 36 => 2
              case _ => -1
          else
            match code
              case 37 => 3
              case 38 => 4
              case 39 => 63
              case 40 => 5
              case 41 => 6
              case 42 => 7
              case _ => -1
        else
          if code < 49 then
            match code
              case 43 => 8
              case 44 => 9
              case 45 => 10
              case 46 => 11
              case 47 => 12
              case 48 => 13
              case _ => -1
          else
            match code
              case 49 => 14
              case 50 => 15
              case 51 => 16
              case 52 => 17
              case 53 => 18
              case 54 => 19
              case _ => -1
      else
        if code < 67 then
          if code < 61 then
            match code
              case 55 => 20
              case 56 => 21
              case 57 => 22
              case 58 => 23
              case 59 => 24
              case 60 => 25
              case _ => -1
          else
            match code
              case 61 => 26
              case 62 => 27
              case 63 => 29
              case 64 => 30
              case 65 => 31
              case 66 => 32
              case _ => -1
        else
          if code < 73 then
            match code
              case 67 => 33
              case 68 => 34
              case 69 => 35
              case 70 => 36
              case 71 => 37
              case 72 => 38
              case _ => -1
          else
            match code
              case 73 => 39
              case 74 => 40
              case 75 => 41
              case 76 => 42
              case 77 => 43
              case 78 => 44
              case _ => -1
    else
      if code < 103 then
        if code < 91 then
          if code < 85 then
            match code
              case 79 => 45
              case 80 => 46
              case 81 => 47
              case 82 => 48
              case 83 => 49
              case 84 => 50
              case _ => -1
          else
            match code
              case 85 => 51
              case 86 => 52
              case 87 => 53
              case 88 => 54
              case 89 => 55
              case 90 => 56
              case _ => -1
        else
          if code < 97 then
            match code
              case 91 => 57
              case 92 => 28
              case 93 => 58
              case 94 => 59
              case 95 => 60
              case 96 => 61
              case _ => -1
          else
            match code
              case 97 => 65
              case 98 => 66
              case 99 => 67
              case 100 => 68
              case 101 => 69
              case 102 => 70
              case _ => -1
      else
        if code < 115 then
          if code < 109 then
            match code
              case 103 => 71
              case 104 => 72
              case 105 => 73
              case 106 => 74
              case 107 => 75
              case 108 => 76
              case _ => -1
          else
            match code
              case 109 => 77
              case 110 => 78
              case 111 => 79
              case 112 => 80
              case 113 => 81
              case 114 => 82
              case _ => -1
        else
          if code < 121 then
            match code
              case 115 => 83
              case 116 => 84
              case 117 => 85
              case 118 => 86
              case 119 => 87
              case 120 => 88
              case _ => -1
          else
            match code
              case 121 => 89
              case 122 => 90
              case 123 => 91
              case 124 => 92
              case 125 => 93
              case 126 => 94
              case _ => -1
  }

  /** The index in the second half (counted from 95) of the character with the given code, or -1 for a code that is not printable ASCII. */
  function ScrambledIndex(code: int): int
  {
    if code < 79 then
      if code < 55 then
        if code < 43 then
          if code < 37 then
            match code
              case 32 => 71
              case 33 => 70
              case 34 => 27
              case 35 => 72
              case 36 => 73
              case _ => -1
          else
            match code
              case 37 => 50
              case 38 => 15
              case 39 => 9
              case 40 => 75
              case 41 => 66
              case 42 => 92
              case _ => -1
        else
          if code < 49 then
            match code
              case 43 => 88
              case 44 => 84
              case 45 => 79
              case 46 => 63
              case 47 => 59
              case 48 => 93
              case _ => -1
          else
            match code
              case 49 => 17
              case 50 => 14
              case 51 => 19
              case 52 => 28
              case 53 => 22
              case 54 => 31
              case _ => -1
      else
        if code < 67 then
          if code < 61 then
            match code
              case 55 => 25
              case 56 => 34
              case 57 => 26
              case 58 => 55
              case 59 => 76
              case 60 => 46
              case _ => -1
          else
            match code
              case 61 => 43
              case 62 => 39
              case 63 => 35
              case 64 => 30
              case 65 => 3
              case 66 => 36
              case _ => -1
        else
          if code < 73 then
            match code
              case 67 => 61
              case 68 => 45
              case 69 => 4
              case 70 => 41
              case 71 => 57
              case 72 => 67
              case _ => -1
          else
            match code
              case 73 => 8
              case 74 => 64
              case 75 => 58
              case 76 => 77
              case 77 => 82
              case 78 => 85
              case _ => -1
    else
      if code < 103 then
        if code < 91 then
          if code < 85 then
            match code
              case 79 => 10
              case 80 => 38
              case 81 => 69
              case 82 => 80
              case 83 => 49
              case 84 => 47
              case _ => -1
          else
            match code
              case 85 => 12
              case 86 => 42
              case 87 => 87
              case 88 => 94
              case 89 => 89
              case 90 => 51
              case _ => -1
        else
          if code < 97 then
            match code
              case 91 => 13
              case 92 => 32
              case 93 => 5
              case 94 => 1
              case 95 => 24
              case 96 => 20
              case _ => -1
          else
            match code
              case 97 => 83
              case 98 => 91
              case 99 => 48
              case 100 => 40
              case 101 => 52
              case 102 => 0
              case _ => -1
      else
        if code < 115 then
          if code < 109 then
            match code
              case 103 => 37
              case 104 => 21
              case 105 => 68
              case 106 => 2
              case 107 => 7
              case 108 => 56
              case _ => -1
          else
            match code
              case 109 => 44
              case 110 => 90
              case 111 => 6
              case 112 => 29
              case 113 => 16
              case 114 => 54
              case _ => -1
        else
          if code < 121 then
            match code
              case 115 => 33
              case 116 => 78
              case 117 => 60
              case 118 => 86
              case 119 => 23
              case 120 => 65
              case _ => -1
          else
            match code
              case 121 => 62
              case 122 => 11
              case 123 => 18
              case 124 => 53
              case 125 => 81
              case 126 => 74
              case _ => -1
  }

  /* The entries are checked five at a time so that each proof obligation
     stays small: every entry is printable and the two index functions
     invert the halves. */

  lemma Entries00()
    ensures forall j :: 0 <= j < 5 ==> Printable(PlainHalf(j)) && PlainIndex(PlainHalf(j) as int) == j
    ensures forall j :: 0 <= j < 5 ==> Printable(ScrambledHalf(j)) && ScrambledIndex(ScrambledHalf(j) as int) == j
  {
  }
  lemma Entries05()
    ensures forall j :: 5 <= j < 10 ==> Printable(PlainHalf(j)) && PlainIndex(PlainHalf(j) as int) == j
    ensures forall j :: 5 <= j < 10 ==> Printable(ScrambledHalf(j)) && ScrambledIndex(ScrambledHalf(j) as int) == j
  {
  }
  lemma Entries10()
    ensures forall j :: 10 <= j < 15 ==> Printable(PlainHalf(j)) && PlainIndex(PlainHalf(j) as int) == j
    ensures forall j :: 10 <= j < 15 ==> Printable(ScrambledHalf(j)) && ScrambledIndex(ScrambledHalf(j) as int) == j
  {
  }
  lemma Entries15()
    ensures forall j :: 15 <= j < 20 ==> Printable(PlainHalf(j)) && PlainIndex(PlainHalf(j) as int) == j
    ensures forall j :: 15 <= j < 20 ==> Printable(ScrambledHalf(j)) && ScrambledIndex(ScrambledHalf(j) as int) == j
  {
  }
  lemma Entries20()
    ensures forall j :: 20 <= j < 25 ==> Printable(PlainHalf(j)) && PlainIndex(PlainHalf(j) as int) == j
    ensures forall j :: 20 <= j < 25 ==> Printable(ScrambledHalf(j)) && ScrambledIndex(ScrambledHalf(j) as int) == j
  {
  }
  lemma Entries25()
    ensures forall j :: 25 <= j < 30 ==> Printable(PlainHalf(j)) && PlainIndex(PlainHalf(j) as int) == j
    ensures forall j :: 25 <= j < 30 ==> Printable(ScrambledHalf(j)) && ScrambledIndex(ScrambledHalf(j) as int) == j
  {
  }
  lemma Entries30()
    ensures forall j :: 30 <= j < 35 ==> Printable(PlainHalf(j)) && PlainIndex(PlainHalf(j) as int) == j
    ensures forall j :: 30 <= j < 35 ==> Printable(ScrambledHalf(j)) && ScrambledIndex(ScrambledHalf(j) as int) == j
  {
  }
  lemma Entries35()
    ensures forall j :: 35 <= j < 40 ==> Printable(PlainHalf(j)) && PlainIndex(PlainHalf(j) as int) == j
    ensures forall j :: 35 <= j < 40 ==> Printable(ScrambledHalf(j)) && ScrambledIndex(ScrambledHalf(j) as int) == j
  {
  }
  lemma Entries40()
    ensures forall j :: 40 <= j < 45 ==> Printable(PlainHalf(j)) && PlainIndex(PlainHalf(j) as int) == j
    ensures forall j :: 40 <= j < 45 ==> Printable(ScrambledHalf(j)) && ScrambledIndex(ScrambledHalf(j) as int) == j
  {
  }
  lemma Entries45()
    ensures forall j :: 45 <= j < 50 ==> Printable(PlainHalf(j)) && PlainIndex(PlainHalf(j) as int) == j
    ensures forall j :: 45 <= j < 50 ==> Printable(ScrambledHalf(j)) && ScrambledIndex(ScrambledHalf(j) as int) == j
  {
  }
  lemma Entries50()
    ensures forall j :: 50 <= j < 55 ==> Printable(PlainHalf(j)) && PlainIndex(PlainHalf(j) as int) == j
    ensures forall j :: 50 <= j < 55 ==> Printable(ScrambledHalf(j)) && ScrambledIndex(ScrambledHalf(j) as int) == j
  {
  }
  lemma Entries55()
    ensures forall j :: 55 <= j < 60 ==> Printable(PlainHalf(j)) && PlainIndex(PlainHalf(j) as int) == j
    ensures forall j :: 55 <= j < 60 ==> Printable(ScrambledHalf(j)) && ScrambledIndex(ScrambledHalf(j) as int) == j
  {
  }
  lemma Entries60()
    ensures forall j :: 60 <= j < 65 ==> Printable(PlainHalf(j)) && PlainIndex(PlainHalf(j) as int) == j
    ensures forall j :: 60 <= j < 65 ==> Printable(ScrambledHalf(j)) && ScrambledIndex(ScrambledHalf(j) as int) == j
  {
  }
  lemma Entries65()
    ensures forall j :: 65 <= j < 70 ==> Printable(PlainHalf(j)) && PlainIndex(PlainHalf(j) as int) == j
    ensures forall j :: 65 <= j < 70 ==> Printable(ScrambledHalf(j)) && ScrambledIndex(ScrambledHalf(j) as int) == j
  {
  }
  lemma Entries70()
    ensures forall j :: 70 <= j < 75 ==> Printable(PlainHalf(j)) && PlainIndex(PlainHalf(j) as int) == j
    ensures forall j :: 70 <= j < 75 ==> Printable(ScrambledHalf(j)) && ScrambledIndex(ScrambledHalf(j) as int) == j
  {
  }
  lemma Entries75()
    ensures forall j :: 75 <= j < 80 ==> Printable(PlainHalf(j)) && PlainIndex(PlainHalf(j) as int) == j
    ensures forall j :: 75 <= j < 80 ==> Printable(ScrambledHalf(j)) && ScrambledIndex(ScrambledHalf(j) as int) == j
  {
  }
  lemma Entries80()
    ensures forall j :: 80 <= j < 85 ==> Printable(PlainHalf(j)) && PlainIndex(PlainHalf(j) as int) == j
    ensures forall j :: 80 <= j < 85 ==> Printable(ScrambledHalf(j)) && ScrambledIndex(ScrambledHalf(j) as int) == j
  {
  }
  lemma Entries85()
    ensures forall j :: 85 <= j < 90 ==> Printable(PlainHalf(j)) && PlainIndex(PlainHalf(j) as int) == j
    ensures forall j :: 85 <= j < 90 ==> Printable(ScrambledHalf(j)) && ScrambledIndex(ScrambledHalf(j) as int) == j
  {
  }
  lemma Entries90()
    ensures forall j :: 90 <= j < 95 ==> Printable(PlainHalf(j)) && PlainIndex(PlainHalf(j) as int) == j
    ensures forall j :: 90 <= j < 95 ==> Printable(ScrambledHalf(j)) && ScrambledIndex(ScrambledHalf(j) as int) == j
  {
  }

  /** Entry `j` of each half is printable and is found again at `j` by the
      index function of its half. */
  lemma EntryFacts(j: int)
    requires 0 <= j < Size
    ensures Printable(PlainHalf(j)) && PlainIndex(PlainHalf(j) as int) == j
    ensures Printable(ScrambledHalf(j)) && ScrambledIndex(ScrambledHalf(j) as int) == j
  {
    if j < 5 { Entries00(); }
    else if j < 10 { Entries05(); }
    else if j < 15 { Entries10(); }
    else if j < 20 { Entries15(); }
    else if j < 25 { Entries20(); }
    else if j < 30 { Entries25(); }
    else if j < 35 { Entries30(); }
    else if j < 40 { Entries35(); }
    else if j < 45 { Entries40(); }
    else if j < 50 { Entries45(); }
    else if j < 55 { Entries50(); }
    else if j < 60 { Entries55(); }
    else if j < 65 { Entries60(); }
    else if j < 70 { Entries65(); }
    else if j < 75 { Entries70(); }
    else if j < 80 { Entries75(); }
    else if j < 85 { Entries80(); }
    else if j < 90 { Entries85(); }
    else { Entries90(); }
  }

  /** Neither half repeats a character. */
  lemma HalvesDistinct(i: int, j: int)
    requires 0 <= i < Size && 0 <= j < Size && i != j
    ensures PlainHalf(i) != PlainHalf(j)
    ensures ScrambledHalf(i) != ScrambledHalf(j)
  {
    EntryFacts(i);
    EntryFacts(j);
  }

  /** The set of values a sequence takes. */
  ghost function Values(s: seq<int>): set<int>
  {
    set x | x in s
  }

  lemma {:induction false} DistinctValues(s: seq<int>)
    requires forall i, j :: 0 <= i < j < |s| ==> s[i] != s[j]
    ensures |Values(s)| == |s|
  {
    if s == [] {
      assert Values(s) == {};
    } else {
      var init := s[..|s| - 1];
      DistinctValues(init);
      assert Values(s) == Values(init) + {s[|s| - 1]};
    }
  }

  lemma SubsetSize(a: set<int>, b: set<int>)
    requires a <= b
    ensures |a| <= |b|
  {
    assert b == a + (b - a);
    assert a * (b - a) == {};
  }

  /** Pigeonhole: `n` distinct values drawn from `[0, n)` take every value
      of `[0, n)`. */
  lemma Pigeonhole(s: seq<int>, v: int)
    requires forall i :: 0 <= i < |s| ==> 0 <= s[i] < |s|
    requires forall i, j :: 0 <= i < j < |s| ==> s[i] != s[j]
    requires 0 <= v < |s|
    ensures v in s
  {
    if v !in s {
      var range := seq(|s|, x => x);
      DistinctValues(s);
      DistinctValues(range);
      assert range[v] == v;
      var others := Values(range) - {v};
      forall x | x in Values(s)
        ensures x in others
      {
        assert range[x] == x;
      }
      SubsetSize(Values(s), others);
    }
  }

  /** Each half holds every printable character, found by its index function:
      the second half is a rearrangement of the first. */
  lemma HalvesCover(c: char)
    requires Printable(c)
    ensures 0 <= PlainIndex(c as int) < Size && PlainHalf(PlainIndex(c as int)) == c
    ensures 0 <= ScrambledIndex(c as int) < Size && ScrambledHalf(ScrambledIndex(c as int)) == c
  {
    var plain := seq(Size, j => PlainHalf(j) as int - 32);
    var scrambled := seq(Size, j => ScrambledHalf(j) as int - 32);
    forall i | 0 <= i < Size
      ensures 0 <= plain[i] < Size && 0 <= scrambled[i] < Size
    {
      EntryFacts(i);
    }
    forall i, j | 0 <= i < j < Size
      ensures plain[i] != plain[j] && scrambled[i] != scrambled[j]
    {
      HalvesDistinct(i, j);
    }
    Pigeonhole(plain, c as int - 32);
    Pigeonhole(scrambled, c as int - 32);
    var p :| 0 <= p < Size && plain[p] == c as int - 32;
    var q :| 0 <= q < Size && scrambled[q] == c as int - 32;
    EntryFacts(p);
    EntryFacts(q);
  }

  /** A character occurs in either half of the table exactly when it is
      printable ASCII. */
  lemma TableSymbols(c: char)
    ensures c in Table()[..Size] <==> Printable(c)
    ensures c in Table()[Size..] <==> Printable(c)
  {
    if Printable(c) {
      HalvesCover(c);
      assert Table()[..Size][PlainIndex(c as int)] == c;
      assert Table()[Size..][ScrambledIndex(c as int)] == c;
    } else {
      forall k | 0 <= k < Size
        ensures Table()[..Size][k] != c && Table()[Size..][k] != c
      {
        EntryFacts(k);
      }
    }
  }

  /** Looking a character up in the second half: a printable character sits
      at table index `95 + ScrambledIndex(c)` and nowhere else in that half;
      any other character is absent from it. */
  lemma ScrambledLookup(c: char)
    ensures Printable(c) ==> 0 <= ScrambledIndex(c as int) < Size && Table()[Size + ScrambledIndex(c as int)] == c
    ensures forall k :: Size <= k < 2 * Size && Table()[k] == c ==> Printable(c) && k == Size + ScrambledIndex(c as int)
  {
    if Printable(c) {
      HalvesCover(c);
    }
    forall k | Size <= k < 2 * Size && Table()[k] == c
      ensures Printable(c) && k == Size + ScrambledIndex(c as int)
    {
      EntryFacts(k - Size);
    }
  }

  /** `strpos($S, $c, 95)`: the search of the second half finds a
      printable character at `95 + ScrambledIndex(c)` and finds nothing
      else. */
  lemma FindInScrambled(c: char)
    ensures StrPos(Table(), c, Size) == if Printable(c) then Some(Size + ScrambledIndex(c as int)) else None
  {
    ScrambledLookup(c);
    StrPosFirst(Table(), c, Size);
  }

  /** Every entry of the table is printable ASCII. */
  lemma TablePrintable(k: int)
    requires 0 <= k < 2 * Size
    ensures Printable(Table()[k])
  {
    if k < Size {
      EntryFacts(k);
    } else {
      EntryFacts(k - Size);
    }
  }
}
