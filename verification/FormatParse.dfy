// The grammar of FORMAT text as pars_f reads it: a reader from text to format
// trees. Positions index the text; reading at or past its end yields NUL.
module FormatParse {
  import opened Options
  import opened FormatCode

  function At(s: string, i: int): char {
    if 0 <= i < |s| then s[i] else '\0'
  }

  predicate Digit(c: char) { '0' <= c <= '9' }

  function DigitValue(c: char): nat
    requires Digit(c)
  {
    c as int - '0' as int
  }

  /** Either case of a letter given in upper case. */
  predicate Letter(c: char, upper: char)
    requires 'A' <= upper <= 'Z'
  {
    c == upper || c as int == upper as int + 32
  }

  function Skip(s: string, i: nat): (j: nat)
    ensures i <= j && At(s, j) != ' '
    ensures j <= |s| || j == i
    decreases |s| - i
  {
    if At(s, i) == ' ' then Skip(s, i + 1) else i
  }

  /** Digits and blanks from i on: the value so far m, whether a digit was seen, and the end. */
  function Number(s: string, i: nat, m: nat, seen: bool): (r: (nat, bool, nat))
    ensures i <= r.2 && !Digit(At(s, r.2)) && At(s, r.2) != ' '
    ensures r.2 <= |s| || r.2 == i
    ensures r.1 && !seen ==> i < r.2
    decreases |s| - i
  {
    if At(s, i) == ' ' then Number(s, i + 1, m, seen)
    else if Digit(At(s, i)) then Number(s, i + 1, 10 * m + DigitValue(At(s, i)), true)
    else (m, seen, i)
  }

  /** gt_num: a number, or dflt when there is no digit; with dflt 0 a missing number is an error. */
  function GtNum(s: string, i: nat, dflt: nat): (r: Option<(nat, nat)>)
    ensures r.Some? ==> i <= r.value.1 && !Digit(At(s, r.value.1)) && At(s, r.value.1) != ' '
    ensures r.Some? ==> r.value.1 <= |s| || r.value.1 == i
  {
    var (m, seen, j) := Number(s, i, 0, false);
    if seen then Some((m, j))
    else if dflt == 0 then None
    else Some((dflt, j))
  }

  /** ap_end: the position after the closing quote; two quotes in a row stand for one. */
  function QuoteEnd(s: string, i: nat, quote: char): (r: Option<nat>)
    ensures r.Some? ==> i < r.value
    decreases |s| - i
  {
    if At(s, i) == '\0' then None
    else if At(s, i) != quote then QuoteEnd(s, i + 1, quote)
    else if At(s, i + 1) != quote then Some(i + 1)
    else QuoteEnd(s, i + 2, quote)
  }

  /** The outcome of trying to read one descriptor. */
  datatype Lexed = NotOne | Bad | Got(item: Item, next: nat)

  const GLITCH := '\U{0002}'

  function GotMove(d: Ned, next: nat): Lexed { Got(Once(Move(d)), next) }

  function GotFlag(c: Ctl, next: nat): Lexed { Got(Once(Flag(c)), next) }

  /** ne_d: descriptors that take no list item. */
  function LexPlain(s: string, i: nat): (r: Lexed)
    ensures r.Got? ==> r.item.Once? && i < r.next && At(s, i) != '\0'
  {
    var c := At(s, i);
    if c == ':' then Got(Once(Stop), i + 1)
    else if c == '$' then GotFlag(Nonl, i + 1)
    else if Letter(c, 'B') then GotFlag(if Letter(At(s, i + 1), 'Z') then BZ else BN, i + 2)
    else if Letter(c, 'S') then
      if Letter(At(s, i + 1), 'S') then GotFlag(SS, i + 2)
      else if Letter(At(s, i + 1), 'P') then GotFlag(SP, i + 2)
      else GotFlag(S, i + 1)
    else if c == '/' then GotMove(Slash, i + 1)
    else if c == '-' then LexCounted(s, i + 1, true)
    else if c == '+' then LexCounted(s, i + 1, false)
    else if Digit(c) then LexCounted(s, i, false)
    else if c == GLITCH || c == '"' || c == '\'' then
      match QuoteEnd(s, i + 1, c)
      case None => NotOne
      case Some(j) => GotMove(Apos(i), j)
    else if Letter(c, 'T') then
      if Letter(At(s, i + 1), 'L') then LexTab(s, i + 2, 'L')
      else if Letter(At(s, i + 1), 'R') then LexTab(s, i + 2, 'R')
      else LexTab(s, i + 1, 'T')
    else if Letter(c, 'X') then GotMove(X(1), i + 1)
    else if Letter(c, 'P') then GotFlag(P(1), i + 1)
    else NotOne
  }

  function Signed(minus: bool, n: int): int { if minus then -n else n }

  /** A number that belongs to a following P, X or H. */
  function LexCounted(s: string, i: nat, minus: bool): (r: Lexed)
    ensures r.Got? ==> r.item.Once? && i < r.next
  {
    match GtNum(s, i, 0)
    case None => Bad
    case Some((n, j)) =>
      var c := At(s, j);
      if Letter(c, 'P') then GotFlag(P(Signed(minus, n)), j + 1)
      else if Letter(c, 'X') then GotMove(X(n), j + 1)
      else if Letter(c, 'H') then GotMove(H(n, j + 1), j + n + 1)
      else NotOne
  }

  /** T, TL or TR. */
  function TabNed(dir: char, n: nat): Ned {
    if dir == 'L' then TL(n) else if dir == 'R' then TR(n) else T(n)
  }

  function LexTab(s: string, i: nat, dir: char): (r: Lexed)
    ensures r.Got? ==> r.item.Once? && i <= r.next
  {
    match GtNum(s, i, 0)
    case None => Bad
    case Some((n, j)) => GotMove(TabNed(dir, n), j)
  }

  /** A field width of zero leaves only the repeat count behind. */
  function Field(n: nat, w: nat, ed: Ed): Item {
    if w == 0 then Bare(n) else Edit(n, ed)
  }

  /** e_d: a repeat count and a descriptor that takes a list item. */
  function LexEdit(s: string, i: nat): (r: Lexed)
    ensures r.Got? ==> (r.item.Edit? || r.item.Bare?) && r.item.n == GtNum(s, i, 1).value.0 && i < r.next
  {
    var (n, j) := GtNum(s, i, 1).value;
    var c := At(s, j);
    if Letter(c, 'E') then LexExponent(s, j + 1, n, 'E')
    else if Letter(c, 'G') then LexExponent(s, j + 1, n, 'G')
    else if Letter(c, 'O') then LexInteger(s, j + 1, n, 'O')
    else if Letter(c, 'Z') then LexInteger(s, j + 1, n, 'Z')
    else if Letter(c, 'I') then LexInteger(s, j + 1, n, 'I')
    else if Letter(c, 'L') then
      match GtNum(s, j + 1, 0)
      case None => Bad
      case Some((w, k)) => Got(Field(n, w, L(w)), k)
    else if Letter(c, 'A') then
      var a := Skip(s, j + 1);
      if Digit(At(s, a)) then
        var (w, k) := GtNum(s, a, 1).value;
        Got(Field(n, w, AW(w)), k)
      else Got(Edit(n, A), a)
    else if Letter(c, 'F') then LexFraction(s, j + 1, n, 'F')
    else if Letter(c, 'D') then LexFraction(s, j + 1, n, 'D')
    else NotOne
  }

  /** I, O or Z, or IM, OM or ZM with at least m digits. */
  function IntegerEd(letter: char, w: nat, m: Option<nat>): Ed {
    if letter == 'I' then if m.Some? then IM(w, m.value) else I(w)
    else if letter == 'O' then if m.Some? then OM(w, m.value) else O(w)
    else if m.Some? then ZM(w, m.value) else Z(w)
  }

  /** F or D. */
  function FractionEd(letter: char, w: nat, d: nat): Ed {
    if letter == 'F' then F(w, d) else D(w, d)
  }

  /** E or G, or EE or GE with e digits of exponent. */
  function ExponentEd(letter: char, w: nat, d: nat, e: Option<nat>): Ed {
    if letter == 'E' then if e.Some? then EE(w, d, e.value) else E(w, d)
    else if e.Some? then GE(w, d, e.value) else G(w, d)
  }

  /** The digits after a period, 0 if there is no period. */
  function Fraction(s: string, i: nat): (r: Option<(nat, nat)>)
    ensures r.Some? ==> i <= r.value.1
  {
    if At(s, i) == '.' then GtNum(s, i + 1, 0) else Some((0, i))
  }

  function LexExponent(s: string, i: nat, n: nat, letter: char): (r: Lexed)
    ensures r.Got? ==> (r.item.Edit? || r.item.Bare?) && r.item.n == n && i <= r.next
  {
    match GtNum(s, i, 0)
    case None => Bad
    case Some((w, j)) =>
      if w == 0 then Got(Bare(n), j)
      else
        match Fraction(s, j)
        case None => Bad
        case Some((d, k)) =>
          if !Letter(At(s, k), 'E') then Got(Edit(n, ExponentEd(letter, w, d, None)), k)
          else
            match GtNum(s, k + 1, 0)
            case None => Bad
            case Some((e, l)) => Got(Edit(n, ExponentEd(letter, w, d, Some(e))), l)
  }

  function LexInteger(s: string, i: nat, n: nat, letter: char): (r: Lexed)
    ensures r.Got? ==> (r.item.Edit? || r.item.Bare?) && r.item.n == n && i <= r.next
  {
    match GtNum(s, i, 0)
    case None => Bad
    case Some((w, j)) =>
      if w == 0 then Got(Bare(n), j)
      else if At(s, j) != '.' then Got(Edit(n, IntegerEd(letter, w, None)), j)
      else
        match GtNum(s, j + 1, 0)
        case None => Bad
        case Some((m, k)) => Got(Edit(n, IntegerEd(letter, w, Some(m))), k)
  }

  function LexFraction(s: string, i: nat, n: nat, letter: char): (r: Lexed)
    ensures r.Got? ==> (r.item.Edit? || r.item.Bare?) && r.item.n == n && i <= r.next
  {
    match GtNum(s, i, 0)
    case None => Bad
    case Some((w, j)) =>
      if w == 0 then Got(Bare(n), j)
      else
        match Fraction(s, j)
        case None => Bad
        case Some((d, k)) => Got(Edit(n, FractionEd(letter, w, d)), k)
  }

  /** A list of items up to and including its closing parenthesis, starting after the
      opening one. Commas between items are optional. */
  function ReadList(s: string, i: nat): (r: Option<(seq<Item>, nat)>)
    ensures r.Some? ==> i < r.value.1
    decreases |s| - i, 2
  {
    if At(s, i) == '\0' then None else ReadItems(s, Skip(s, i))
  }

  /** The same, from the first character that is not a blank. */
  function ReadItems(s: string, i1: nat): (r: Option<(seq<Item>, nat)>)
    ensures r.Some? ==> i1 < r.value.1
    decreases |s| - i1, 1
  {
    if At(s, i1) == ')' then Some(([], i1 + 1))
    else
      match ReadItem(s, i1)
      case None => None
      case Some((it, i2)) =>
        var i3 := Skip(s, i2);
        if At(s, i3) == ')' then Some(([it], i3 + 1))
        else
          match ReadList(s, if At(s, i3) == ',' then i3 + 1 else i3)
          case None => None
          case Some((rest, j)) => Some(([it] + rest, j))
  }

  function ReadItem(s: string, i: nat): (r: Option<(Item, nat)>)
    ensures r.Some? ==> i < r.value.1
    decreases |s| - i, 0
  {
    match LexPlain(s, i)
    case Bad => None
    case Got(it, j) => Some((it, j))
    case NotOne =>
      match LexEdit(s, i)
      case Bad => None
      case Got(it, j) => Some((it, j))
      case NotOne =>
        var (n, j) := GtNum(s, i, 1).value;
        if At(s, j) != '(' then None
        else
          match ReadList(s, j + 1)
          case None => None
          case Some((body, k)) => Some((Group(n, body), Skip(s, k)))
  }

  /** A list that goes on with an item. */
  lemma {:induction false} ReadListOn(s: string, i: nat)
    requires At(s, i) != '\0' && At(s, Skip(s, i)) != ')'
    ensures ReadList(s, i) ==
            match ReadItem(s, Skip(s, i))
            case None => None
            case Some((it, j)) =>
              var k := Skip(s, j);
              if At(s, k) == ')' then Some(([it], k + 1))
              else
                match ReadList(s, if At(s, k) == ',' then k + 1 else k)
                case None => None
                case Some((rest, l)) => Some(([it] + rest, l))
  {}

  /** A whole format; text after its closing parenthesis is ignored. */
  function ReadFormat(s: string): Option<seq<Item>> {
    var i := Skip(s, 0);
    if At(s, i) != '(' then None
    else
      match ReadList(s, i + 1)
      case None => None
      case Some((items, _)) => Some(items)
  }
}
