// The spellings of a format that section 13 of ANSI X3.9-1978 allows and the reader
// of FORMAT text accepts, and the tree each of them stands for.
module FormatSpelling {
  import opened Options
  import opened FormatCode
  import opened FormatParse
  import opened Seqs

  // ----- spelled formats -----

  /** Digits, perhaps with blanks before, between and after them. */
  type Num = string

  predicate ValidNum(t: Num) {
    (forall k | 0 <= k < |t| :: t[k] == ' ' || '0' <= t[k] <= '9') && exists k :: 0 <= k < |t| && '0' <= t[k] <= '9'
  }

  /** The value of digits and blanks that continue the value m. */
  function Val(t: string, m: nat): nat {
    if t == [] then m
    else if '0' <= t[0] <= '9' then Val(t[1..], 10 * m + (t[0] as int - '0' as int))
    else Val(t[1..], m)
  }

  /** A letter in either case. */
  datatype Cased = Cased(upper: char, up: bool)

  function Ch(c: Cased): string {
    [if c.up || !('A' <= c.upper <= 'Z') then c.upper else (c.upper as int + 32) as char]
  }

  datatype Tab = TabTo | TabLeft | TabRight

  /** An edit descriptor with its widths, after its repeat count. */
  datatype Kind =
    | KA(a: Cased)
    | KAW(a: Cased, w: Num)
    | KL(l: Cased, w: Num)
    | KInt(letter: Cased, w: Num, m: Option<Num>)
    | KFix(letter: Cased, w: Num, d: Option<Num>)
    | KExp(letter: Cased, w: Num, d: Option<Num>, e: Option<(Cased, Num)>)

  datatype Spelled =
    | SSlash | SColon | SDollar
    | SBlank(b: Cased, gap: nat, second: Cased)
    | SSign(s: Cased, gap: nat, mode: Option<Cased>)
    | SX(n: Option<Num>, x: Cased)
    | SScale(sign: Option<char>, n: Option<Num>, p: Cased)
    | SHollerith(len: Num, h: Cased, text: string)
    | SApos(quote: char, text: string)
    | STab(t: Cased, gap: nat, dir: Option<Cased>, col: Num)
    | SEdit(n: Option<Num>, kind: Kind)
    | SGroup(n: Option<Num>, body: seq<Entry>, trail: nat)

  /** An item of a list, the blanks before and after it, and whether a comma follows. */
  datatype Entry = Entry(lead: nat, item: Spelled, trail: nat, comma: bool)

  function Blanks(n: nat): (s: string)
    ensures |s| == n && forall k | 0 <= k < n :: s[k] == ' '
  {
    seq(n, _ => ' ')
  }

  function OptNum(n: Option<Num>): string { if n.Some? then n.value else "" }

  function Dotted(n: Option<Num>): string { if n.Some? then "." + n.value else "" }

  /** A character constant's text with its quotes doubled. */
  function Doubled(text: string, quote: char): string {
    if text == [] then [] else (if text[0] == quote then [quote, quote] else [text[0]]) + Doubled(text[1..], quote)
  }

  /** The second letter of a descriptor, if it has one, behind a gap. */
  function Second(gap: nat, letter: Option<Cased>): string {
    if letter.Some? then Blanks(gap) + Ch(letter.value) else ""
  }

  function Exponent(e: Option<(Cased, Num)>): string { if e.Some? then Ch(e.value.0) + e.value.1 else "" }

  /** The letter of an edit descriptor. */
  function Letter0(k: Kind): Cased {
    match k
    case KA(a) => a
    case KAW(a, _) => a
    case KL(l, _) => l
    case KInt(letter, _, _) => letter
    case KFix(letter, _, _) => letter
    case KExp(letter, _, _, _) => letter
  }

  /** What follows that letter. */
  function Widths(k: Kind): string {
    match k
    case KA(_) => ""
    case KAW(_, w) => w
    case KL(_, w) => w
    case KInt(_, w, m) => w + Dotted(m)
    case KFix(_, w, d) => w + Dotted(d)
    case KExp(_, w, d, e) => w + (Dotted(d) + Exponent(e))
  }

  function KindText(k: Kind): string { Ch(Letter0(k)) + Widths(k) }

  predicate ValidWidth(w: Num) { ValidNum(w) && Val(w, 0) > 0 }

  predicate ValidOpt(n: Option<Num>) { n.Some? ==> ValidNum(n.value) }

  /** A repeat count starts with a digit. */
  predicate ValidCount(n: Option<Num>) { n.Some? ==> ValidNum(n.value) && '0' <= n.value[0] <= '9' }

  predicate Is(c: Cased, letters: set<char>) { c.upper in letters && 'A' <= c.upper <= 'Z' }

  predicate ValidKind(k: Kind) {
    match k
    case KA(a) => Is(a, {'A'})
    case KAW(a, w) => Is(a, {'A'}) && ValidWidth(w)
    case KL(l, w) => Is(l, {'L'}) && ValidWidth(w)
    case KInt(letter, w, m) => Is(letter, {'I', 'O', 'Z'}) && ValidWidth(w) && ValidOpt(m)
    case KFix(letter, w, d) => Is(letter, {'F', 'D'}) && ValidWidth(w) && ValidOpt(d)
    case KExp(letter, w, d, e) =>
      Is(letter, {'E', 'G'}) && ValidWidth(w) && ValidOpt(d)
        && (e.Some? ==> Is(e.value.0, {'E'}) && ValidNum(e.value.1))
  }

  predicate IsQuote(c: char) { c == '\'' || c == '"' || c == '\U{0002}' }

  predicate Valid(it: Spelled)
    decreases it
  {
    match it
    case SBlank(b, _, second) => Is(b, {'B'}) && Is(second, {'N', 'Z'})
    case SSign(s, _, second) => Is(s, {'S'}) && (second.Some? ==> Is(second.value, {'S', 'P'}))
    case SX(n, x) => ValidCount(n) && Is(x, {'X'})
    case SScale(sign, n, p) =>
      && Is(p, {'P'}) && ValidOpt(n)
      && if sign.Some? then (sign.value == '+' || sign.value == '-') && n.Some? else ValidCount(n)
    case SHollerith(n, h, text) => ValidCount(Some(n)) && Is(h, {'H'}) && |text| == Val(n, 0)
    case SApos(quote, text) => IsQuote(quote) && forall k | 0 <= k < |text| :: text[k] != '\0'
    case STab(t, _, dir, n) => Is(t, {'T'}) && (dir.Some? ==> Is(dir.value, {'L', 'R'})) && ValidNum(n)
    case SEdit(n, kind) => ValidCount(n) && ValidKind(kind)
    case SGroup(n, body, _) => ValidCount(n) && ValidList(body)
    case _ => true
  }

  /** A comma may be left out after an item that is closed, or before a slash, a colon, a group
      without count or a character constant. */
  predicate ValidList(es: seq<Entry>)
    decreases es
  {
    es == [] || (ValidEntry(es[0]) && ValidList(es[1..]) && (es[0].comma || |es| == 1 || MayJoin(es[0], es[1])))
  }

  predicate ValidEntry(e: Entry)
    decreases e
  {
    match e case Entry(_, item, _, _) => Valid(item)
  }

  /** No descriptor has a gap between its two letters. */
  predicate Tight(it: Spelled)
    decreases it
  {
    match it
    case SBlank(_, gap, _) => gap == 0
    case SSign(_, gap, mode) => mode.Some? ==> gap == 0
    case STab(_, gap, dir, _) => dir.Some? ==> gap == 0
    case SGroup(_, body, _) => TightList(body)
    case _ => true
  }

  predicate TightList(es: seq<Entry>)
    decreases es
  {
    es == [] || (TightEntry(es[0]) && TightList(es[1..]))
  }

  predicate TightEntry(e: Entry)
    decreases e
  {
    match e case Entry(_, item, _, _) => Tight(item)
  }

  predicate MayJoin(a: Entry, b: Entry) {
    if a.item.SApos? then a.trail + b.lead > 0 || First(b.item) != a.item.quote
    else Closed(a.item) || Stops(First(b.item))
  }

  /** The item ends whatever follows. */
  predicate Closed(it: Spelled) { !it.SEdit? && !it.STab? && !(it.SSign? && it.mode.None?) && !it.SApos? }

  /** What may follow any item. */
  predicate Stops(c: char) { c == ',' || c == ')' || c == '/' || c == ':' || c == '(' || IsQuote(c) }

  function Text(it: Spelled): string
    decreases it
  {
    match it
    case SSlash => "/"
    case SColon => ":"
    case SDollar => "$"
    case SBlank(b, gap, second) => Ch(b) + Second(gap, Some(second))
    case SSign(s, gap, mode) => Ch(s) + Second(gap, mode)
    case SX(n, x) => OptNum(n) + Ch(x)
    case SScale(sign, n, p) => (if sign.Some? then [sign.value] else "") + OptNum(n) + Ch(p)
    case SHollerith(n, h, text) => n + Ch(h) + text
    case SApos(quote, text) => [quote] + (Doubled(text, quote) + [quote])
    case STab(t, gap, dir, n) => Ch(t) + Second(gap, dir) + n
    case SEdit(n, kind) => OptNum(n) + KindText(kind)
    case SGroup(n, body, trail) => OptNum(n) + ("(" + (ListText(body) + (Blanks(trail) + ")")))
  }

  function EntryText(e: Entry): string
    decreases e
  {
    match e
    case Entry(lead, item, trail, comma) => Blanks(lead) + (Text(item) + (Blanks(trail) + (if comma then "," else "")))
  }

  function ListText(es: seq<Entry>): string
    decreases es
  {
    if es == [] then "" else EntryText(es[0]) + ListText(es[1..])
  }

  /** The first character of an item. */
  function First(it: Spelled): char {
    match it
    case SSlash => '/'
    case SColon => ':'
    case SDollar => '$'
    case SBlank(b, _, _) => Ch(b)[0]
    case SSign(s, _, _) => Ch(s)[0]
    case SX(n, x) => (OptNum(n) + Ch(x))[0]
    case SScale(sign, n, p) => if sign.Some? then sign.value else (OptNum(n) + Ch(p))[0]
    case SHollerith(n, h, _) => (n + Ch(h))[0]
    case SApos(quote, _) => quote
    case STab(t, _, _, _) => Ch(t)[0]
    case SEdit(n, kind) => (OptNum(n) + KindText(kind))[0]
    case SGroup(n, _, _) => (OptNum(n) + "(")[0]
  }

  lemma {:induction false} TextStarts(it: Spelled)
    requires Valid(it)
    ensures Text(it) != "" && Text(it)[0] == First(it)
    ensures First(it) != ' ' && First(it) != ')' && First(it) != '\0' && First(it) != ','
  {
    match it
    case SX(n, x) => CountedStarts(n, Ch(x), "");
    case SScale(sign, n, p) => ScaleStarts(sign, n, p);
    case SHollerith(n, h, text) => CountedStarts(Some(n), Ch(h), text);
    case SEdit(n, kind) => CountedStarts(n, Ch(Letter0(kind)), Widths(kind));
    case SGroup(n, body, trail) =>
      CountedStarts(n, "(", "");
      CountedStarts(n, "(", ListText(body) + (Blanks(trail) + ")"));
    case _ =>
  }

  /** A count, if there is one, and then the character x. */
  lemma CountedStarts(n: Option<Num>, x: string, more: string)
    requires ValidCount(n) && |x| == 1 && x[0] !in {' ', ')', '\0', ','}
    ensures var t := OptNum(n) + (x + more);
            t != "" && t[0] == (OptNum(n) + x)[0] && t[0] !in {' ', ')', '\0', ','}
  {
    assert x + "" == x;
  }

  lemma {:induction false} ScaleStarts(sign: Option<char>, n: Option<Num>, p: Cased)
    requires Valid(SScale(sign, n, p))
    ensures var it := SScale(sign, n, p); Text(it) != "" && Text(it)[0] == First(it)
    ensures First(SScale(sign, n, p)) !in {' ', ')', '\0', ','}
  {
    if sign.None? {
      CountedStarts(n, Ch(p), "");
      assert "" + OptNum(n) + Ch(p) == OptNum(n) + (Ch(p) + "");
    }
  }

  // ----- the trees -----

  function Count(n: Option<Num>): nat { if n.Some? then Val(n.value, 0) else 1 }

  function KindOf(k: Kind): Ed
    requires ValidKind(k)
  {
    match k
    case KA(_) => A
    case KAW(_, w) => AW(Val(w, 0))
    case KL(_, w) => L(Val(w, 0))
    case KInt(letter, w, m) => KindOfInt(letter.upper, Val(w, 0), m)
    case KFix(letter, w, d) => if letter.upper == 'F' then F(Val(w, 0), OptVal(d)) else D(Val(w, 0), OptVal(d))
    case KExp(letter, w, d, e) => KindOfExp(letter.upper, Val(w, 0), OptVal(d), e)
  }

  function KindOfInt(letter: char, w: nat, m: Option<Num>): Ed {
    match m
    case None => if letter == 'Z' then Z(w) else if letter == 'O' then O(w) else I(w)
    case Some(n) =>
      if letter == 'Z' then ZM(w, Val(n, 0)) else if letter == 'O' then OM(w, Val(n, 0)) else IM(w, Val(n, 0))
  }

  function KindOfExp(letter: char, w: nat, d: nat, e: Option<(Cased, Num)>): Ed {
    match e
    case None => if letter == 'G' then G(w, d) else E(w, d)
    case Some((_, n)) => if letter == 'G' then GE(w, d, Val(n, 0)) else EE(w, d, Val(n, 0))
  }

  /** The tree of an item whose text starts at position at. */
  function Tree(it: Spelled, at: nat): Item
    requires Valid(it)
    decreases it
  {
    match it
    case SSlash => Once(Move(Slash))
    case SColon => Once(Stop)
    case SDollar => Once(Flag(Nonl))
    case SBlank(_, _, second) => Once(Flag(if second.upper == 'Z' then BZ else BN))
    case SSign(_, _, second) =>
      Once(Flag(if second.None? then S else if second.value.upper == 'S' then SS else SP))
    case SX(n, _) => Once(Move(X(Count(n))))
    case SScale(sign, n, _) => Once(Flag(P((if sign == Some('-') then -1 else 1) * Count(n))))
    case SHollerith(n, _, text) => Once(Move(H(|text|, at + |n| + 1)))
    case SApos(_, _) => Once(Move(Apos(at)))
    case STab(_, _, dir, n) =>
      Once(Move(if dir.None? then T(Val(n, 0)) else if dir.value.upper == 'L' then TL(Val(n, 0)) else TR(Val(n, 0))))
    case SEdit(n, kind) => Edit(Count(n), KindOf(kind))
    case SGroup(n, body, _) => Group(Count(n), Trees(body, at + |OptNum(n)| + 1))
  }

  function Trees(es: seq<Entry>, at: nat): seq<Item>
    requires ValidList(es)
    decreases es
  {
    if es == [] then [] else [EntryTree(es[0], at)] + Trees(es[1..], at + |EntryText(es[0])|)
  }

  function EntryTree(e: Entry, at: nat): Item
    requires ValidEntry(e)
    decreases e
  {
    match e case Entry(lead, item, _, _) => Tree(item, at + lead)
  }

  // ----- reading text that is there -----

  /** t stands at position i of s. */
  predicate Has(s: string, i: nat, t: string)
    decreases |t|
  {
    if t == "" then i <= |s| else i < |s| && s[i] == t[0] && Has(s, i + 1, t[1..])
  }

  lemma {:induction false} HasParts(s: string, i: nat, a: string, b: string)
    requires Has(s, i, a + b)
    ensures Has(s, i, a) && Has(s, i + |a|, b)
    decreases |a|
  {
    if a == "" {
      assert a + b == b;
      HasFits(s, i, b);
    } else {
      assert (a + b)[1..] == a[1..] + b;
      HasParts(s, i + 1, a[1..], b);
    }
  }

  lemma {:induction false} HasFits(s: string, i: nat, t: string)
    requires Has(s, i, t)
    ensures i + |t| <= |s|
    decreases |t|
  {
    if t != "" {
      HasFits(s, i + 1, t[1..]);
    }
  }

  lemma HasFirst(s: string, i: nat, t: string)
    requires Has(s, i, t) && t != ""
    ensures At(s, i) == t[0] && Has(s, i + 1, t[1..])
  {}

  lemma {:induction false} SkipBlanks(s: string, i: nat, n: nat)
    requires Has(s, i, Blanks(n))
    ensures Skip(s, i) == Skip(s, i + n)
    decreases n
  {
    if n != 0 {
      HasFirst(s, i, Blanks(n));
      assert Blanks(n)[1..] == Blanks(n - 1);
      SkipBlanks(s, i + 1, n - 1);
    }
  }

  /** The next character that is not a blank. */
  function Next(s: string, i: nat): char { At(s, Skip(s, i)) }

  lemma {:induction false} NumberReads(s: string, i: nat, t: string, m: nat, seen: bool)
    requires Has(s, i, t) && (forall k | 0 <= k < |t| :: t[k] == ' ' || Digit(t[k])) && !Digit(Next(s, i + |t|))
    ensures Number(s, i, m, seen) == (Val(t, m), seen || (exists k :: 0 <= k < |t| && Digit(t[k])), Skip(s, i + |t|))
    decreases |t|
  {
    if t == "" {
      NumberEnds(s, i, m, seen);
    } else {
      HasFirst(s, i, t);
      var rest := t[1..];
      if t[0] == ' ' {
        NumberReads(s, i + 1, rest, m, seen);
      } else {
        NumberReads(s, i + 1, rest, 10 * m + DigitValue(t[0]), true);
      }
      assert (exists k :: 0 <= k < |t| && Digit(t[k])) <==>
               Digit(t[0]) || (exists k :: 0 <= k < |rest| && Digit(rest[k])) by {
        if k :| 0 <= k < |rest| && Digit(rest[k]) { assert Digit(t[k + 1]); }
        if k :| 0 <= k < |t| && Digit(t[k]) && k != 0 { assert Digit(rest[k - 1]); }
      }
    }
  }

  lemma {:induction false} NumberEnds(s: string, i: nat, m: nat, seen: bool)
    requires !Digit(Next(s, i))
    ensures Number(s, i, m, seen) == (m, seen, Skip(s, i))
    decreases |s| - i
  {
    if At(s, i) == ' ' {
      NumberEnds(s, i + 1, m, seen);
    }
  }

  lemma NumReads(s: string, i: nat, t: Num, dflt: nat)
    requires Has(s, i, t) && ValidNum(t) && !Digit(Next(s, i + |t|))
    ensures GtNum(s, i, dflt) == Some((Val(t, 0), Skip(s, i + |t|)))
  {
    NumberReads(s, i, t, 0, false);
  }

  lemma {:induction false} QuoteReads(s: string, i: nat, text: string, quote: char)
    requires Has(s, i, Doubled(text, quote) + [quote]) && IsQuote(quote) && forall k | 0 <= k < |text| ::
               text[k] != '\0'
    requires At(s, i + |Doubled(text, quote)| + 1) != quote
    ensures QuoteEnd(s, i, quote) == Some(i + |Doubled(text, quote)| + 1)
    decreases |text|
  {
    var d := Doubled(text, quote);
    if text == "" {
      HasFirst(s, i, d + [quote]);
    } else {
      var rest := Doubled(text[1..], quote) + [quote];
      var first := if text[0] == quote then [quote, quote] else [text[0]];
      assert d + [quote] == first + rest;
      HasParts(s, i, first, rest);
      HasFirst(s, i, first);
      if text[0] == quote {
        HasFirst(s, i + 1, first[1..]);
      }
      QuoteReads(s, i + |first|, text[1..], quote);
    }
  }

  // ----- each descriptor is read -----

  /** c is the letter upper, in either case, and no other. */
  ghost predicate Uppers(c: char, upper: char) { forall u | 'A' <= u <= 'Z' :: Letter(c, u) <==> u == upper }

  lemma ChReads(s: string, i: nat, c: Cased)
    requires Has(s, i, Ch(c)) && 'A' <= c.upper <= 'Z'
    ensures At(s, i) == Ch(c)[0] && Uppers(At(s, i), c.upper)
  {
    HasFirst(s, i, Ch(c));
  }

  /** What follows the text of an item allows it to end there. */
  predicate Ends(it: Spelled, s: string, end: nat) {
    if it.SApos? then At(s, end) != it.quote else Closed(it) || Stops(Next(s, end))
  }

  lemma StopsAt(s: string, end: nat)
    requires Stops(Next(s, end))
    ensures !Digit(Next(s, end)) && forall u | 'A' <= u <= 'Z' :: !Letter(Next(s, end), u) && !Letter(At(s, end), u)
    ensures Next(s, end) != '.'
  {}

  lemma SkipTwice(s: string, i: nat)
    ensures Skip(s, Skip(s, i)) == Skip(s, i)
  {}

  /** A count, if there is one, and what it comes to when it may be missing. */
  lemma CountReads(s: string, i: nat, n: Option<Num>, rest: string)
    requires Has(s, i, OptNum(n) + rest) && ValidCount(n) && rest != "" && rest[0] != ' ' && !Digit(rest[0])
    ensures GtNum(s, i, 1) == Some((Count(n), i + |OptNum(n)|)) && Has(s, i + |OptNum(n)|, rest)
    ensures n.Some? ==> GtNum(s, i, 0) == Some((Count(n), i + |OptNum(n)|)) && Digit(At(s, i))
  {
    HasParts(s, i, OptNum(n), rest);
    HasFirst(s, i + |OptNum(n)|, rest);
    if n.Some? {
      HasFirst(s, i, n.value);
      NumReads(s, i, n.value, 0);
      NumReads(s, i, n.value, 1);
    } else {
      NumberEnds(s, i, 0, false);
    }
  }

  /** A width that is followed by something else than a digit. */
  lemma WidthReads(s: string, i: nat, w: Num, rest: string)
    requires Has(s, i, w + rest) && ValidNum(w)
    requires if rest == "" then !Digit(Next(s, i + |w|)) else rest[0] != ' ' && !Digit(rest[0])
    ensures GtNum(s, i, 0) == Some((Val(w, 0), if rest == "" then Skip(s, i + |w|) else i + |w|))
    ensures Has(s, i + |w|, rest)
  {
    HasParts(s, i, w, rest);
    if rest != "" {
      HasFirst(s, i + |w|, rest);
    }
    NumReads(s, i, w, 0);
  }

  /** An optional fraction. */
  lemma {:induction false} DotReads(s: string, i: nat, d: Option<Num>, rest: string)
    requires Has(s, i, Dotted(d) + rest) && ValidOpt(d)
    requires if rest == "" then Stops(Next(s, i + |Dotted(d)|)) else rest[0] != ' ' && !Digit(rest[0]) && rest[0] != '.'
    requires rest == "" && d.None? ==> At(s, i) != ' '
    ensures Fraction(s, i) == Some((OptVal(d),
                                    if rest == "" then Skip(s, i + |Dotted(d)|) else i + |Dotted(d)|))
    ensures Has(s, i + |Dotted(d)|, rest)
    ensures At(s, i) == '.' <==> d.Some?
  {
    HasParts(s, i, Dotted(d), rest);
    if d.Some? {
      assert Dotted(d) + rest == "." + (d.value + rest);
      HasFirst(s, i, Dotted(d) + rest);
      assert (Dotted(d) + rest)[1..] == d.value + rest;
      if rest == "" {
        StopsAt(s, i + |Dotted(d)|);
      }
      WidthReads(s, i + 1, d.value, rest);
    } else if rest != "" {
      HasFirst(s, i, rest);
    } else {
      StopsAt(s, i);
    }
  }

  /** A width and what may follow it: where each number ends. */
  lemma WidthScan(s: string, i: nat, w: Num, m: Option<Num>, end: nat) returns (j: nat)
    requires Has(s, i, w + Dotted(m)) && ValidWidth(w) && ValidOpt(m) && end == i + |w + Dotted(m)|
             && Stops(Next(s, end))
    ensures GtNum(s, i, 0) == Some((Val(w, 0), j)) && (At(s, j) == '.' <==> OptSome(m).Some?)
    ensures if OptSome(m).Some? then GtNum(s, j + 1, 0) == Some((OptSome(m).value, Skip(s, end))) else j == Skip(s, end)
  {
    j := if m.Some? then i + |w| else Skip(s, end);
    WidthReads(s, i, w, Dotted(m));
    if m.Some? {
      HasFirst(s, j, Dotted(m));
      assert Dotted(m)[1..] == m.value && m.value + "" == m.value;
      WidthReads(s, j + 1, m.value, "");
    }
  }

  lemma IntegerReads(s: string, i: nat, n: nat, letter: char, w: nat, j: nat, m: Option<nat>, end: nat)
    requires w > 0 && GtNum(s, i, 0) == Some((w, j)) && (At(s, j) == '.' <==> m.Some?)
    requires if m.Some? then GtNum(s, j + 1, 0) == Some((m.value, end)) else j == end
    ensures LexInteger(s, i, n, letter) == Got(Edit(n, IntegerEd(letter, w, m)), end)
  {}

  lemma FractionReads(s: string, i: nat, n: nat, letter: char, w: nat, j: nat, d: Option<nat>, end: nat)
    requires w > 0 && GtNum(s, i, 0) == Some((w, j)) && (At(s, j) == '.' <==> d.Some?)
    requires if d.Some? then GtNum(s, j + 1, 0) == Some((d.value, end)) else j == end
    ensures LexFraction(s, i, n, letter) == Got(Edit(n, FractionEd(letter, w, if d.Some? then d.value else 0)), end)
  {}

  lemma ExponentEnds(s: string, i: nat, n: nat, letter: char, w: nat, j: nat, d: nat, k: nat, e: Option<nat>, end: nat)
    requires w > 0 && GtNum(s, i, 0) == Some((w, j)) && Fraction(s, j) == Some((d, k))
             && (Letter(At(s, k), 'E') <==> e.Some?)
    requires if e.Some? then GtNum(s, k + 1, 0) == Some((e.value, end)) else k == end
    ensures LexExponent(s, i, n, letter) == Got(Edit(n, ExponentEd(letter, w, d, e)), end)
  {}

  /** The fraction that follows a width, and then rest. */
  lemma AfterWidth(s: string, j: nat, d: Option<Num>, rest: string)
    requires Has(s, j, Dotted(d) + rest) && ValidOpt(d)
    requires if rest == "" then Stops(Next(s, j + |Dotted(d)|)) else rest[0] != ' ' && !Digit(rest[0]) && rest[0] != '.'
    ensures var at, end := if Dotted(d) + rest == "" then Skip(s, j) else j, j + |Dotted(d)|;
            Fraction(s, at) == Some((OptVal(d), if rest == "" then Skip(s, end) else end))
    ensures Has(s, j + |Dotted(d)|, rest)
  {
    if d.None? && rest == "" {
      StopsAt(s, j);
      SkipTwice(s, j);
    } else {
      DotReads(s, j, d, rest);
    }
  }

  lemma ExponentReads(s: string, i: nat, n: nat, letter: char, w: Num, d: Option<Num>, e: Option<(Cased, Num)>,
                      end: nat)
    requires Has(s, i, w + (Dotted(d) + Exponent(e))) && ValidWidth(w) && ValidOpt(d)
    requires e.Some? ==> Is(e.value.0, {'E'}) && ValidNum(e.value.1)
    requires end == i + |w + (Dotted(d) + Exponent(e))| && Stops(Next(s, end))
    ensures LexExponent(s, i, n, letter)
            == Got(Edit(n,
                        ExponentEd(letter, Val(w, 0), OptVal(d), if e.Some? then Some(Val(e.value.1, 0)) else None)),
                          Skip(s, end))
  {
    var j, k := ExponentParts(s, i, w, d, e, end);
    ExponentEnds(s, i, n, letter, Val(w, 0), j, OptVal(d), k, if e.Some? then Some(Val(e.value.1, 0))
                 else None, Skip(s, end));
  }

  lemma ExponentParts(s: string, i: nat, w: Num, d: Option<Num>, e: Option<(Cased, Num)>, end: nat)
    returns (j: nat, k: nat)
    requires Has(s, i, w + (Dotted(d) + Exponent(e))) && ValidWidth(w) && ValidOpt(d)
    requires e.Some? ==> Is(e.value.0, {'E'}) && ValidNum(e.value.1)
    requires end == i + |w + (Dotted(d) + Exponent(e))| && Stops(Next(s, end))
    ensures GtNum(s, i, 0) == Some((Val(w, 0), j)) && Fraction(s, j) == Some((OptVal(d), k))
    ensures Letter(At(s, k), 'E') <==> e.Some?
    ensures if e.Some? then GtNum(s, k + 1, 0) == Some((Val(e.value.1, 0), Skip(s, end))) else k == Skip(s, end)
  {
    WidthReads(s, i, w, Dotted(d) + Exponent(e));
    j := if Dotted(d) + Exponent(e) == "" then Skip(s, i + |w|) else i + |w|;
    AfterWidth(s, i + |w|, d, Exponent(e));
    k := i + |w| + |Dotted(d)|;
    ExponentScan(s, k, e, end);
    k := if e.Some? then k else Skip(s, end);
  }

  lemma ExponentScan(s: string, k: nat, e: Option<(Cased, Num)>, end: nat)
    requires Has(s, k, Exponent(e)) && (e.Some? ==> Is(e.value.0, {'E'}) && ValidNum(e.value.1))
    requires end == k + |Exponent(e)| && Stops(Next(s, end))
    ensures Letter(At(s, if e.Some? then k else Skip(s, end)), 'E') <==> e.Some?
    ensures e.Some? ==> GtNum(s, k + 1, 0) == Some((Val(e.value.1, 0), Skip(s, end)))
  {
    if e.Some? {
      var c, num := e.value.0, e.value.1;
      HasParts(s, k, Ch(c), num);
      ChReads(s, k, c);
      assert num + "" == num;
      WidthReads(s, k + 1, num, "");
    }
  }

  function OptVal(d: Option<Num>): nat { if d.Some? then Val(d.value, 0) else 0 }

  function OptSome(d: Option<Num>): Option<nat> { if d.Some? then Some(Val(d.value, 0)) else None }

  lemma KindStarts(k: Kind)
    requires ValidKind(k)
    ensures KindText(k) != "" && KindText(k)[0] == Ch(Letter0(k))[0]
            && Is(Letter0(k), {'A', 'L', 'I', 'O', 'Z', 'F', 'D', 'E', 'G'})
    ensures !Digit(KindText(k)[0]) && KindText(k)[0] != ' '
  {}

  /** ne_d does not take an edit descriptor. */
  lemma NotPlain(s: string, i: nat, counted: bool, n: nat, j: nat, u: char)
    requires if counted then Digit(At(s, i)) && GtNum(s, i, 0) == Some((n, j)) else i == j
    requires u in {'A', 'L', 'I', 'O', 'Z', 'F', 'D', 'E', 'G'} && Letter(At(s, j), u)
    ensures LexPlain(s, i) == NotOne
  {}

  /** The count and the letter of an edit descriptor, and where its widths are. */
  predicate EditAt(s: string, i: nat, n: nat, j: nat, k: Kind, end: nat) {
    && GtNum(s, i, 1) == Some((n, j)) && ValidKind(k) && Letter(At(s, j), Letter0(k).upper)
    && Has(s, j + 1, Widths(k)) && end == j + 1 + |Widths(k)| && Stops(Next(s, end))
  }

  /** How e_d goes on after the letter u at j. */
  lemma EditChosen(s: string, i: nat, n: nat, j: nat, u: char)
    requires GtNum(s, i, 1) == Some((n, j)) && 'A' <= u <= 'Z' && Letter(At(s, j), u)
    ensures u in {'I', 'O', 'Z'} ==> LexEdit(s, i) == LexInteger(s, j + 1, n, u)
    ensures u in {'F', 'D'} ==> LexEdit(s, i) == LexFraction(s, j + 1, n, u)
    ensures u in {'E', 'G'} ==> LexEdit(s, i) == LexExponent(s, j + 1, n, u)
  {}

  lemma EditChosenA(s: string, i: nat, n: nat, j: nat)
    requires GtNum(s, i, 1) == Some((n, j)) && Letter(At(s, j), 'A')
    ensures var a := Skip(s, j + 1);
            LexEdit(s, i) ==
                if Digit(At(s, a)) then Got(Field(n, GtNum(s, a, 1).value.0, AW(GtNum(s, a, 1).value.0)),
                                            GtNum(s, a, 1).value.1)
                             else Got(Edit(n, A), a)
  {}

  lemma EditChosenL(s: string, i: nat, n: nat, j: nat, w: nat, end: nat)
    requires GtNum(s, i, 1) == Some((n, j)) && Letter(At(s, j), 'L') && GtNum(s, j + 1, 0) == Some((w, end)) && w > 0
    ensures LexEdit(s, i) == Got(Edit(n, L(w)), end)
  {}

  lemma EditA(s: string, i: nat, n: nat, j: nat, k: Kind, end: nat)
    requires EditAt(s, i, n, j, k, end) && (k.KA? || k.KAW?)
    ensures LexEdit(s, i) == Got(Edit(n, KindOf(k)), Skip(s, end))
  {
    EditChosenA(s, i, n, j);
    if k.KAW? {
      SkipInto(s, j + 1, k.w);
    }
  }

  lemma EditL(s: string, i: nat, n: nat, j: nat, k: Kind, end: nat)
    requires EditAt(s, i, n, j, k, end) && k.KL?
    ensures LexEdit(s, i) == Got(Edit(n, KindOf(k)), Skip(s, end))
  {
    NumReads(s, j + 1, k.w, 0);
    EditChosenL(s, i, n, j, Val(k.w, 0), Skip(s, end));
  }

  lemma EditInteger(s: string, i: nat, n: nat, j: nat, k: Kind, end: nat)
    requires EditAt(s, i, n, j, k, end) && k.KInt?
    ensures LexEdit(s, i) == Got(Edit(n, KindOf(k)), Skip(s, end))
  {
    EditChosen(s, i, n, j, k.letter.upper);
    var l := WidthScan(s, j + 1, k.w, k.m, end);
    IntegerReads(s, j + 1, n, k.letter.upper, Val(k.w, 0), l, OptSome(k.m), Skip(s, end));
  }

  lemma EditFraction(s: string, i: nat, n: nat, j: nat, k: Kind, end: nat)
    requires EditAt(s, i, n, j, k, end) && k.KFix?
    ensures LexEdit(s, i) == Got(Edit(n, KindOf(k)), Skip(s, end))
  {
    EditChosen(s, i, n, j, k.letter.upper);
    var l := WidthScan(s, j + 1, k.w, k.d, end);
    FractionReads(s, j + 1, n, k.letter.upper, Val(k.w, 0), l, OptSome(k.d), Skip(s, end));
  }

  lemma EditExponent(s: string, i: nat, n: nat, j: nat, k: Kind, end: nat)
    requires EditAt(s, i, n, j, k, end) && k.KExp?
    ensures LexEdit(s, i) == Got(Edit(n, KindOf(k)), Skip(s, end))
  {
    EditChosen(s, i, n, j, k.letter.upper);
    ExponentReads(s, j + 1, n, k.letter.upper, k.w, k.d, k.e, end);
  }

  /** e_d reads every edit descriptor, and ne_d does not take it. */
  lemma EditReads(s: string, i: nat, n: Option<Num>, k: Kind, end: nat)
    requires Has(s, i, OptNum(n) + KindText(k)) && ValidCount(n) && ValidKind(k)
    requires end == i + |OptNum(n) + KindText(k)| && Stops(Next(s, end))
    ensures LexEdit(s, i) == Got(Edit(Count(n), KindOf(k)), Skip(s, end)) && LexPlain(s, i) == NotOne
  {
    EditFound(s, i, n, k, end);
    EditOf(s, i, Count(n), i + |OptNum(n)|, k, end);
  }

  lemma EditFound(s: string, i: nat, n: Option<Num>, k: Kind, end: nat)
    requires Has(s, i, OptNum(n) + KindText(k)) && ValidCount(n) && ValidKind(k)
    requires end == i + |OptNum(n) + KindText(k)| && Stops(Next(s, end))
    ensures EditAt(s, i, Count(n), i + |OptNum(n)|, k, end) && LexPlain(s, i) == NotOne
  {
    var j, c := i + |OptNum(n)|, Letter0(k);
    KindStarts(k);
    CountReads(s, i, n, KindText(k));
    HasParts(s, j, Ch(c), Widths(k));
    ChReads(s, j, c);
    NotPlain(s, i, n.Some?, Count(n), j, c.upper);
  }

  lemma EditOf(s: string, i: nat, n: nat, j: nat, k: Kind, end: nat)
    requires EditAt(s, i, n, j, k, end)
    ensures LexEdit(s, i) == Got(Edit(n, KindOf(k)), Skip(s, end))
  {
    match k {
      case KA(_) => EditA(s, i, n, j, k, end);
      case KAW(_, _) => EditA(s, i, n, j, k, end);
      case KL(_, _) => EditL(s, i, n, j, k, end);
      case KInt(_, _, _) => EditInteger(s, i, n, j, k, end);
      case KFix(_, _, _) => EditFraction(s, i, n, j, k, end);
      case KExp(_, _, _, _) => EditExponent(s, i, n, j, k, end);
    }
  }

  /** Skipping the blanks before a width leads to its first digit. */
  lemma {:induction false} SkipInto(s: string, i: nat, w: Num)
    requires Has(s, i, w) && ValidNum(w) && !Digit(Next(s, i + |w|))
    ensures Digit(Next(s, i)) && GtNum(s, Skip(s, i), 1) == Some((Val(w, 0), Skip(s, i + |w|)))
    decreases |w|
  {
    HasFirst(s, i, w);
    if w[0] == ' ' {
      assert ValidNum(w[1..]) by {
        var k :| 0 <= k < |w| && '0' <= w[k] <= '9';
        assert '0' <= w[1..][k - 1] <= '9';
      }
      SkipInto(s, i + 1, w[1..]);
    } else {
      NumReads(s, i, w, 1);
    }
  }

  // ----- the other descriptors -----

  /** ne_d reads the descriptors that take no list item. */
  lemma {:induction false} PlainReads(s: string, i: nat, it: Spelled, end: nat)
    requires Valid(it) && Tight(it) && !it.SEdit? && !it.SGroup?
    requires Has(s, i, Text(it)) && end == i + |Text(it)| && Ends(it, s, end)
    ensures LexPlain(s, i) == Got(Tree(it, i), if it.STab? then Skip(s, end) else end)
  {
    match it {
      case SBlank(b, _, second) => TwoLetters(s, i, b, second);
      case SSign(c, _, mode) =>
        if mode.Some? {
          TwoLetters(s, i, c, mode.value);
        } else {
          assert Text(it) == Ch(c) + "" == Ch(c);
          ChReads(s, i, c);
          StopsAt(s, end);
        }
      case SX(n, x) =>
        assert Text(it) == OptNum(n) + Ch(x) + "";
        CountedReads(s, i, n, x, "");
      case SScale(sign, n, p) => ScaleReads(s, i, sign, n, p);
      case SHollerith(n, h, text) => CountedReads(s, i, Some(n), h, text);
      case SApos(quote, text) => AposReads(s, i, quote, text);
      case STab(t, _, dir, col) => TabReads(s, i, t, dir, col, end);
      case _ =>
    }
  }

  lemma TwoLetters(s: string, i: nat, a: Cased, b: Cased)
    requires Has(s, i, Ch(a) + Second(0, Some(b))) && 'A' <= a.upper <= 'Z' && 'A' <= b.upper <= 'Z'
    ensures Uppers(At(s, i), a.upper) && Uppers(At(s, i + 1), b.upper)
  {
    assert Second(0, Some(b)) == Ch(b);
    HasParts(s, i, Ch(a), Ch(b));
    ChReads(s, i, a);
    ChReads(s, i + 1, b);
  }

  /** A count and X, P or H, and what follows. */
  lemma CountedReads(s: string, i: nat, n: Option<Num>, c: Cased, rest: string)
    requires Has(s, i, OptNum(n) + Ch(c) + rest) && ValidCount(n) && Is(c, {'X', 'P', 'H'})
             && (n.None? ==> c.upper != 'H')
    ensures var j := i + |OptNum(n)|;
            LexPlain(s, i) == (if c.upper == 'P' then GotFlag(P(Count(n)), j + 1)
                               else if c.upper == 'X' then GotMove(X(Count(n)), j + 1)
                               else GotMove(H(Count(n), j + 1), j + Count(n) + 1))
  {
    var j := i + |OptNum(n)|;
    HasParts(s, i, OptNum(n) + Ch(c), rest);
    CountReads(s, i, n, Ch(c));
    ChReads(s, j, c);
  }

  lemma ScaleReads(s: string, i: nat, sign: Option<char>, n: Option<Num>, p: Cased)
    requires Valid(SScale(sign, n, p)) && Has(s, i, Text(SScale(sign, n, p)))
    ensures LexPlain(s, i) == Got(Tree(SScale(sign, n, p), i), i + |Text(SScale(sign, n, p))|)
  {
    var count := OptNum(n) + Ch(p);
    assert count + "" == count;
    if sign.None? {
      assert Text(SScale(sign, n, p)) == count;
      CountedReads(s, i, n, p, "");
    } else {
      assert Text(SScale(sign, n, p)) == [sign.value] + count;
      HasFirst(s, i, [sign.value] + count);
      assert ([sign.value] + count)[1..] == count;
      HasParts(s, i + 1, n.value, Ch(p));
      var j := i + 1 + |n.value|;
      ChReads(s, j, p);
      NumReads(s, i + 1, n.value, 0);
    }
  }

  lemma AposReads(s: string, i: nat, quote: char, text: string)
    requires Valid(SApos(quote, text)) && Has(s, i, Text(SApos(quote, text)))
    requires At(s, i + |Text(SApos(quote, text))|) != quote
    ensures LexPlain(s, i) == GotMove(Apos(i), i + |Text(SApos(quote, text))|)
  {
    var rest := Doubled(text, quote) + [quote];
    HasFirst(s, i, [quote] + rest);
    assert ([quote] + rest)[1..] == rest;
    QuoteReads(s, i + 1, text, quote);
  }

  lemma {:induction false} TabReads(s: string, i: nat, t: Cased, dir: Option<Cased>, col: Num, end: nat)
    requires Valid(STab(t, 0, dir, col)) && Has(s, i, Text(STab(t, 0, dir, col)))
    requires end == i + |Text(STab(t, 0, dir, col))| && Stops(Next(s, end))
    ensures LexPlain(s, i) == Got(Tree(STab(t, 0, dir, col), i), Skip(s, end))
  {
    StopsAt(s, end);
    if dir.Some? {
      HasParts(s, i, Ch(t) + Second(0, dir), col);
      TwoLetters(s, i, t, dir.value);
      NumReads(s, i + 2, col, 0);
    } else {
      assert Text(STab(t, 0, dir, col)) == Ch(t) + "" + col == Ch(t) + col;
      HasParts(s, i, Ch(t), col);
      ChReads(s, i, t);
      HasFirst(s, i + 1, col);
      NumReads(s, i + 1, col, 0);
      DigitNoLetter(At(s, i + 1));
    }
  }

  lemma DigitNoLetter(c: char)
    requires Digit(c) || c == ' '
    ensures !Letter(c, 'L') && !Letter(c, 'R')
  {}

  // ----- lists -----

  /** Blanks before a list make no difference. */
  lemma {:induction false} ListBlanks(s: string, i: nat, n: nat)
    requires Has(s, i, Blanks(n)) && At(s, i + n) != '\0'
    ensures ReadList(s, i) == ReadList(s, i + n)
    decreases n
  {
    if n != 0 {
      assert Blanks(n)[1..] == Blanks(n - 1);
      if n > 1 {
        assert Blanks(n - 1)[0] == ' ';
        HasFirst(s, i + 1, Blanks(n - 1));
      }
      ListBlank(s, i);
      ListBlanks(s, i + 1, n - 1);
    }
  }

  lemma {:induction false} ListBlank(s: string, i: nat)
    requires At(s, i) == ' ' && At(s, i + 1) != '\0'
    ensures ReadList(s, i) == ReadList(s, i + 1)
  {
    assert Skip(s, i) == Skip(s, i + 1);
  }

  /** What ends a list: blanks and the parenthesis. */
  function Close(trail: nat): string { Blanks(trail) + ")" }

  lemma CloseReads(s: string, i: nat, trail: nat)
    requires Has(s, i, Close(trail))
    ensures Skip(s, i) == i + trail && At(s, i + trail) == ')'
    ensures At(s, i) == ' ' || At(s, i) == ')'
  {
    HasParts(s, i, Blanks(trail), ")");
    SkipBlanks(s, i, trail);
    if trail > 0 {
      HasFirst(s, i, Blanks(trail));
    }
  }

  /** What follows the text of an entry's item. */
  function Follows(e: Entry, rest: seq<Entry>, trail: nat): string {
    Blanks(e.trail) + ((if e.comma then "," else "") + (ListText(rest) + Close(trail)))
  }

  lemma FourParts(a: string, b: string, c: string, d: string, r: string)
    ensures (a + (b + (c + d))) + r == a + (b + (c + (d + r)))
  {}

  /** The text of a nonempty list and its end, taken apart. */
  lemma ListParts(es: seq<Entry>, trail: nat)
    requires es != []
    ensures ListText(es) + Close(trail) == Blanks(es[0].lead) + (Text(es[0].item) + Follows(es[0], es[1..], trail))
    ensures |EntryText(es[0])| == es[0].lead + |Text(es[0].item)| + es[0].trail + if es[0].comma then 1 else 0
  {
    var e, rest := es[0], ListText(es[1..]) + Close(trail);
    AppendAssoc(EntryText(e), ListText(es[1..]), Close(trail));
    FourParts(Blanks(e.lead), Text(e.item), Blanks(e.trail), if e.comma then "," else "", rest);
  }

  /** The character after an item and its blanks: the comma, the parenthesis, or that of the next item. */
  function Mark(es: seq<Entry>): char
    requires es != []
  {
    if es[0].comma then ',' else if |es| == 1 then ')' else First(es[1].item)
  }

  /** The blanks before that character. */
  function Gap(es: seq<Entry>, trail: nat): nat
    requires es != []
  {
    es[0].trail + if es[0].comma then 0 else if |es| == 1 then trail else es[1].lead
  }

  /** Where reading goes on after an item. */
  lemma AfterItem(s: string, end: nat, es: seq<Entry>, trail: nat)
    requires ValidList(es) && es != [] && Has(s, end, Follows(es[0], es[1..], trail))
    ensures Skip(s, end) == end + Gap(es, trail) && At(s, end + Gap(es, trail)) == Mark(es)
    ensures Gap(es, trail) > 0 ==> At(s, end) == ' '
    ensures Has(s, end + es[0].trail + (if es[0].comma then 1 else 0), ListText(es[1..]) + Close(trail))
  {
    var e, rest := es[0], es[1..];
    var text, comma, at := ListText(rest) + Close(trail), if e.comma then "," else "", end + e.trail;
    HasParts(s, end, Blanks(e.trail), comma + text);
    SkipBlanks(s, end, e.trail);
    FirstBlank(s, end, e.trail);
    HasParts(s, at, comma, text);
    if e.comma {
      HasFirst(s, at, comma);
    } else if rest == [] {
      assert text == Close(trail);
      CloseReads(s, at, trail);
    } else {
      NextItem(s, at, rest, trail);
    }
  }

  lemma NextItem(s: string, at: nat, es: seq<Entry>, trail: nat)
    requires ValidList(es) && es != [] && Has(s, at, ListText(es) + Close(trail))
    ensures Has(s, at, Blanks(es[0].lead)) && Has(s, at + es[0].lead, Text(es[0].item))
    ensures Has(s, at + es[0].lead + |Text(es[0].item)|, Follows(es[0], es[1..], trail))
    ensures Skip(s, at) == at + es[0].lead && At(s, at + es[0].lead) == First(es[0].item)
    ensures At(s, at) == if es[0].lead > 0 then ' ' else First(es[0].item)
    ensures First(es[0].item) != ' ' && First(es[0].item) != ')' && First(es[0].item) != '\0'
            && First(es[0].item) != ','
  {
    var e := es[0];
    assert ValidEntry(e);
    var more := Follows(e, es[1..], trail);
    ListParts(es, trail);
    TextStarts(e.item);
    HasParts(s, at, Blanks(e.lead), Text(e.item) + more);
    HasParts(s, at + e.lead, Text(e.item), more);
    HasFirst(s, at + e.lead, Text(e.item));
    SkipBlanks(s, at, e.lead);
    FirstBlank(s, at, e.lead);
  }

  /** So the item may end there. */
  lemma ItemEnds(s: string, end: nat, es: seq<Entry>, trail: nat)
    requires ValidList(es) && es != []
    requires Skip(s, end) == end + Gap(es, trail) && At(s, end + Gap(es, trail)) == Mark(es)
    requires Gap(es, trail) > 0 ==> At(s, end) == ' '
    ensures Ends(es[0].item, s, end)
  {
    assert ValidEntry(es[0]) && Valid(es[0].item);
    if es[0].item.SApos? && Gap(es, trail) == 0 && !es[0].comma && |es| > 1 {
      assert MayJoin(es[0], es[1]);
    }
  }

  lemma FirstBlank(s: string, i: nat, n: nat)
    requires Has(s, i, Blanks(n))
    ensures n > 0 ==> At(s, i) == ' '
  {
    if n > 0 {
      HasFirst(s, i, Blanks(n));
    }
  }

  lemma {:induction false} ItemByPlain(s: string, i: nat, it: Item, j: nat)
    requires LexPlain(s, i) == Got(it, j)
    ensures ReadItem(s, i) == Some((it, j))
  {}

  lemma {:induction false} ItemByEdit(s: string, i: nat, it: Item, j: nat)
    requires LexPlain(s, i) == NotOne && LexEdit(s, i) == Got(it, j)
    ensures ReadItem(s, i) == Some((it, j))
  {}

  lemma {:induction false} ItemByGroup(s: string, i: nat, n: nat, j: nat, body: seq<Item>, k: nat)
    requires LexPlain(s, i) == NotOne && LexEdit(s, i) == NotOne && GtNum(s, i, 1) == Some((n, j)) && At(s, j) == '('
    requires ReadList(s, j + 1) == Some((body, k))
    ensures ReadItem(s, i) == Some((Group(n, body), Skip(s, k)))
  {}

  /** Every item is read as its tree, up to some of the blanks after it. */
  lemma {:induction false} ItemReads(s: string, i: nat, it: Spelled, end: nat) returns (j: nat)
    requires Valid(it) && Tight(it) && Has(s, i, Text(it)) && end == i + |Text(it)| && Ends(it, s, end)
    ensures ReadItem(s, i) == Some((Tree(it, i), j)) && (j == end || j == Skip(s, end))
    decreases Size(it), 1
  {
    if it.SEdit? {
      j := Skip(s, end);
      EditReads(s, i, it.n, it.kind, end);
      ItemByEdit(s, i, Tree(it, i), j);
    } else if it.SGroup? {
      j := Skip(s, end);
      GroupReads(s, i, it, end);
    } else {
      j := if it.STab? then Skip(s, end) else end;
      PlainReads(s, i, it, end);
      ItemByPlain(s, i, Tree(it, i), j);
    }
  }

  lemma {:induction false} GroupReads(s: string, i: nat, it: Spelled, end: nat)
    requires Valid(it) && Tight(it) && it.SGroup? && Has(s, i, Text(it)) && end == i + |Text(it)|
    ensures ReadItem(s, i) == Some((Tree(it, i), Skip(s, end)))
    decreases Size(it), 0
  {
    var j := GroupStarts(s, i, it, end);
    ListReads(s, j + 1, it.body, it.trail);
    ItemByGroup(s, i, Count(it.n), j, Trees(it.body, j + 1), end);
  }

  /** The number of items in an item, for termination. */
  function Size(it: Spelled): nat
    decreases it
  {
    match it
    case SGroup(_, body, _) => 1 + SizeList(body)
    case _ => 1
  }

  function SizeList(es: seq<Entry>): nat
    decreases es
  {
    if es == [] then 0 else SizeEntry(es[0]) + SizeList(es[1..])
  }

  function SizeEntry(e: Entry): nat
    decreases e
  {
    match e case Entry(_, item, _, _) => 1 + Size(item)
  }

  lemma GroupStarts(s: string, i: nat, it: Spelled, end: nat) returns (j: nat)
    requires Valid(it) && it.SGroup? && Has(s, i, Text(it)) && end == i + |Text(it)|
    ensures LexPlain(s, i) == NotOne && LexEdit(s, i) == NotOne && GtNum(s, i, 1) == Some((Count(it.n), j))
            && At(s, j) == '('
    ensures Has(s, j + 1, ListText(it.body) + Close(it.trail)) && end == j + 1 + |ListText(it.body)| + it.trail + 1
    ensures Tree(it, i) == Group(Count(it.n), Trees(it.body, j + 1))
  {
    j := i + |OptNum(it.n)|;
    var rest := ListText(it.body) + Close(it.trail);
    CountReads(s, i, it.n, "(" + rest);
    HasFirst(s, j, "(" + rest);
    assert ("(" + rest)[1..] == rest;
  }

  /** The end of the text of the first item of a list. */
  function ItemEnd(i: nat, es: seq<Entry>): nat
    requires es != []
  {
    i + es[0].lead + |Text(es[0].item)|
  }

  /** Where the rest of the list is. */
  function RestAt(i: nat, es: seq<Entry>): nat
    requires es != []
  {
    ItemEnd(i, es) + es[0].trail + if es[0].comma then 1 else 0
  }

  /** The first item of a list starts after the blanks before it, and its end is marked. */
  predicate Turn(s: string, i: nat, es: seq<Entry>, trail: nat)
    requires es != []
  {
    && At(s, i) != '\0' && Skip(s, i) == i + es[0].lead && At(s, i + es[0].lead) != ')'
    && Skip(s, ItemEnd(i, es)) == ItemEnd(i, es) + Gap(es, trail)
    && At(s, ItemEnd(i, es) + Gap(es, trail)) == Mark(es)
  }

  /** What there is to read of the first item of a list. */
  lemma {:induction false} FirstItem(s: string, i: nat, es: seq<Entry>, trail: nat)
    requires ValidList(es) && es != [] && Has(s, i, ListText(es) + Close(trail))
    ensures Valid(es[0].item) && Has(s, i + es[0].lead, Text(es[0].item)) && Ends(es[0].item, s, ItemEnd(i, es))
    ensures Turn(s, i, es, trail)
    ensures Has(s, RestAt(i, es), ListText(es[1..]) + Close(trail))
  {
    assert ValidEntry(es[0]);
    NextItem(s, i, es, trail);
    FirstEnds(s, i, es, trail);
  }

  lemma FirstEnds(s: string, i: nat, es: seq<Entry>, trail: nat)
    requires ValidList(es) && es != [] && Has(s, ItemEnd(i, es), Follows(es[0], es[1..], trail))
    ensures var end := ItemEnd(i, es);
            && Ends(es[0].item, s, end) && Skip(s, end) == end + Gap(es, trail)
               && At(s, end + Gap(es, trail)) == Mark(es)
    ensures Has(s, RestAt(i, es), ListText(es[1..]) + Close(trail))
  {
    AfterItem(s, ItemEnd(i, es), es, trail);
    ItemEnds(s, ItemEnd(i, es), es, trail);
  }

  /** Where the parts of a list are: its first item from i1 to end, the mark after that at i3, the
      rest of the list at next, and what f_list goes on reading at from. */
  datatype Plan = Plan(i1: nat, end: nat, i3: nat, next: nat, from: nat)

  predicate PlanHolds(s: string, i: nat, es: seq<Entry>, trail: nat, p: Plan)
    requires es != []
  {
    && At(s, i) != '\0' && Skip(s, i) == p.i1 == i + es[0].lead && At(s, p.i1) != ')'
    && Skip(s, p.end) == p.i3 && (At(s, p.i3) == ')' <==> !es[0].comma && |es| == 1)
    && (At(s, p.i3) == ')' ==> p.next + trail == p.i3)
    && (At(s, p.i3) != ')' ==> p.from == if At(s, p.i3) == ',' then p.i3 + 1 else p.i3)
    && (p.from == p.next || (|es| > 1 && p.from == p.next + es[1].lead))
  }

  lemma {:induction false} Planned(s: string, i: nat, es: seq<Entry>, trail: nat) returns (p: Plan)
    requires ValidList(es) && es != [] && Has(s, i, ListText(es) + Close(trail))
    ensures PlanHolds(s, i, es, trail, p) && p.next == i + |EntryText(es[0])|
    ensures Valid(es[0].item) && Has(s, p.i1, Text(es[0].item)) && p.end == p.i1 + |Text(es[0].item)|
            && Ends(es[0].item, s, p.end)
    ensures Has(s, p.next, ListText(es[1..]) + Close(trail))
  {
    FirstItem(s, i, es, trail);
    RestSmaller(i, es, trail);
    var end := ItemEnd(i, es);
    p := Plan(i + es[0].lead, end, end + Gap(es, trail), RestAt(i, es), From(i, es));
    if es[0].comma || |es| > 1 {
      MarkFrom(i, es, trail);
    }
  }

  /** The first item of a list is read; if it is the only one, the list ends after it. */
  lemma {:induction false} FirstReads(s: string, i: nat, es: seq<Entry>, trail: nat) returns (p: Plan, i2: nat)
    requires ValidList(es) && es != [] && Tight(es[0].item) && Has(s, i, ListText(es) + Close(trail))
    ensures PlanHolds(s, i, es, trail, p) && p.next == i + |EntryText(es[0])|
    ensures ReadItem(s, p.i1) == Some((EntryTree(es[0], i), i2)) && Skip(s, i2) == p.i3
    ensures Has(s, p.next, ListText(es[1..]) + Close(trail))
    decreases SizeList(es), 1
  {
    p := Planned(s, i, es, trail);
    SizesLess(es);
    i2 := EntryReads(s, i, es[0], p.end);
    SkipTwice(s, p.end);
  }

  lemma {:induction false} EntryReads(s: string, i: nat, e: Entry, end: nat) returns (j: nat)
    requires ValidEntry(e) && Tight(e.item) && Has(s, i + e.lead, Text(e.item))
    requires end == i + e.lead + |Text(e.item)| && Ends(e.item, s, end)
    ensures ReadItem(s, i + e.lead) == Some((EntryTree(e, i), j)) && (j == end || j == Skip(s, end))
    decreases Size(e.item), 2
  {
    j := ItemReads(s, i + e.lead, e.item, end);
  }

  /** A list is read, up to and including its parenthesis, as its trees. */
  lemma {:induction false} ListReads(s: string, i: nat, es: seq<Entry>, trail: nat)
    requires ValidList(es) && TightList(es) && Has(s, i, ListText(es) + Close(trail))
    ensures ReadList(s, i) == Some((Trees(es, i), i + |ListText(es)| + trail + 1))
    decreases SizeList(es), 3
  {
    if es == [] {
      NoneRead(s, i, trail);
    } else {
      var trees, end := SomeRead(s, i, es, trail);
    }
  }

  lemma {:induction false} SomeRead(s: string, i: nat, es: seq<Entry>, trail: nat) returns (trees: seq<Item>, end: nat)
    requires ValidList(es) && TightList(es) && es != [] && Has(s, i, ListText(es) + Close(trail))
    ensures trees == Trees(es, i) && end == i + |ListText(es)| + trail + 1 && ReadList(s, i) == Some((trees, end))
    decreases SizeList(es), 2
  {
    TightFirst(es);
    SizesLess(es);
    var p, i2 := FirstReads(s, i, es, trail);
    var it, rest;
    it, rest, trees, end := TreesOf(i, es, trail);
    if At(s, p.i3) == ')' {
      StepEnds(s, i, p.i1, it, i2, p.i3, trees);
    } else {
      RestReads(s, p.next, es[1..], trail, p.from, rest, end);
      StepMore(s, i, p.i1, it, i2, p.i3, p.from, rest, end, trees);
    }
  }

  lemma TightFirst(es: seq<Entry>)
    requires ValidList(es) && TightList(es) && es != []
    ensures Tight(es[0].item) && ValidList(es[1..]) && TightList(es[1..])
  {
    assert TightEntry(es[0]);
  }

  lemma {:induction false} NoneRead(s: string, i: nat, trail: nat)
    requires Has(s, i, ListText([]) + Close(trail))
    ensures ReadList(s, i) == Some(([], i + trail + 1))
  {
    assert ListText([]) + Close(trail) == Close(trail);
    CloseReads(s, i, trail);
  }

  /** Where f_list goes on reading. */
  function From(i: nat, es: seq<Entry>): nat
    requires es != []
  {
    RestAt(i, es) + if es[0].comma || |es| == 1 then 0 else es[1].lead
  }

  lemma SizesLess(es: seq<Entry>)
    requires es != []
    ensures Size(es[0].item) < SizeList(es) && SizeList(es[1..]) < SizeList(es)
  {}

  lemma RestSmaller(i: nat, es: seq<Entry>, trail: nat)
    requires ValidList(es) && es != []
    ensures RestAt(i, es) == i + |EntryText(es[0])|
  {
    assert ValidEntry(es[0]);
    TextStarts(es[0].item);
    ListParts(es, trail);
  }

  /** The rest of a list is read, from its start or from its first item. */
  lemma {:induction false} RestReads(
    s: string, next: nat, es: seq<Entry>, trail: nat, from: nat, items: seq<Item>, end: nat)
    requires ValidList(es) && TightList(es) && Has(s, next, ListText(es) + Close(trail))
    requires from == next || (es != [] && from == next + es[0].lead)
    requires items == Trees(es, next) && end == next + |ListText(es)| + trail + 1
    ensures ReadList(s, from) == Some((items, end))
    decreases SizeList(es), 4
  {
    ListReads(s, next, es, trail);
    if from != next {
      RestBlanks(s, next, es, trail, from, Some((items, end)));
    }
  }

  /** The blanks before a list may be passed over first. */
  lemma {:induction false} RestBlanks(
    s: string, at: nat, es: seq<Entry>, trail: nat, from: nat, got: Option<(seq<Item>, nat)>)
    requires ValidList(es) && es != [] && Has(s, at, ListText(es) + Close(trail))
    requires from == at + es[0].lead && ReadList(s, at) == got
    ensures ReadList(s, from) == got
  {
    NextItem(s, at, es, trail);
    ListBlanks(s, at, es[0].lead);
  }

  lemma MarkFrom(i: nat, es: seq<Entry>, trail: nat)
    requires ValidList(es) && es != [] && (es[0].comma || |es| > 1)
    ensures Mark(es) != ')' && From(i, es) == ItemEnd(i, es) + Gap(es, trail) + if Mark(es) == ',' then 1 else 0
  {
    if !es[0].comma {
      assert ValidEntry(es[1..][0]);
      TextStarts(es[1].item);
    }
  }

  lemma TreesGo(i: nat, es: seq<Entry>)
    requires ValidList(es) && es != []
    ensures |ListText(es)| == |EntryText(es[0])| + |ListText(es[1..])|
    ensures Trees(es, i) == [EntryTree(es[0], i)] + Trees(es[1..], i + |EntryText(es[0])|)
    ensures |es| == 1 ==> Trees(es, i) == [EntryTree(es[0], i)] && ListText(es[1..]) == ""
  {
    if |es| == 1 {
      assert es[1..] == [];
    }
  }

  lemma TreesOf(i: nat, es: seq<Entry>, trail: nat) returns (it: Item, rest: seq<Item>, trees: seq<Item>, end: nat)
    requires ValidList(es) && es != []
    ensures trees == Trees(es, i) && it == EntryTree(es[0], i) && rest == Trees(es[1..], i + |EntryText(es[0])|)
    ensures trees == [it] + rest && (|es| == 1 ==> trees == [it])
    ensures end == i + |ListText(es)| + trail + 1 == i + |EntryText(es[0])| + |ListText(es[1..])| + trail + 1
    ensures |es| == 1 ==> |ListText(es[1..])| == 0
  {
    TreesGo(i, es);
    it, rest, trees := EntryTree(es[0], i), Trees(es[1..], i + |EntryText(es[0])|), Trees(es, i);
    end := i + |ListText(es)| + trail + 1;
  }

  lemma {:induction false} StepEnds(s: string, i: nat, i1: nat, it: Item, i2: nat, i3: nat, items: seq<Item>)
    requires At(s, i) != '\0' && Skip(s, i) == i1 && At(s, i1) != ')' && At(s, i3) == ')'
    requires ReadItem(s, i1) == Some((it, i2)) && Skip(s, i2) == i3 && items == [it]
    ensures ReadList(s, i) == Some((items, i3 + 1))
  {}

  lemma {:induction false} StepMore(
    s: string, i: nat, i1: nat, it: Item, i2: nat, i3: nat, from: nat, rest: seq<Item>, j: nat, items: seq<Item>)
    requires At(s, i) != '\0' && Skip(s, i) == i1 && At(s, i1) != ')' && At(s, i3) != ')'
    requires ReadItem(s, i1) == Some((it, i2)) && Skip(s, i2) == i3
    requires from == if At(s, i3) == ',' then i3 + 1 else i3
    requires ReadList(s, from) == Some((rest, j)) && items == [it] + rest
    ensures ReadList(s, i) == Some((items, j))
  {}

  // ----- whole formats -----

  lemma {:induction false} HasSelf(before: string, t: string, after: string)
    ensures Has(before + t + after, |before|, t)
    decreases |t|
  {
    if t != "" {
      HasSelf(before + [t[0]], t[1..], after);
      assert (before + [t[0]]) + t[1..] + after == before + t + after;
    }
  }

  lemma Opening(s: string, lead: nat, list: string, after: string)
    requires s == Blanks(lead) + "(" + list + after
    ensures Skip(s, 0) == lead && At(s, lead) == '(' && Has(s, lead + 1, list)
  {
    HasSelf("", Blanks(lead), "(" + list + after);
    assert "" + Blanks(lead) + ("(" + list + after) == s;
    HasSelf(Blanks(lead) + "(", list, after);
    SkipBlanks(s, 0, lead);
    assert s[lead] == '(';
  }

  /** Every spelling of a format is read as its tree, whatever follows its last parenthesis. */
  lemma SpellingReads(lead: nat, es: seq<Entry>, trail: nat, after: string)
    requires ValidList(es) && TightList(es)
    ensures ReadFormat(Blanks(lead) + "(" + (ListText(es) + Close(trail)) + after) == Some(Trees(es, lead + 1))
  {
    var list := ListText(es) + Close(trail);
    var s := Blanks(lead) + "(" + list + after;
    Opening(s, lead, list, after);
    ListReads(s, lead + 1, es, trail);
  }

  /** And that tree has an operation to repeat for every repeat count. */
  lemma {:induction false} TreesSound(es: seq<Entry>, at: nat)
    requires ValidList(es)
    ensures Sound(Trees(es, at))
    decreases SizeList(es), 1
  {
    if es != [] {
      SizesLess(es);
      TreesGo(at, es);
      TreeSound(es[0].item, at + es[0].lead);
      TreesSound(es[1..], at + |EntryText(es[0])|);
      var trees := Trees(es, at);
      assert trees[1..] == Trees(es[1..], at + |EntryText(es[0])|);
    }
  }

  lemma {:induction false} TreeSound(it: Spelled, at: nat)
    requires Valid(it)
    ensures SoundItem(Tree(it, at))
    decreases Size(it), 0
  {
    if it.SGroup? {
      TreesSound(it.body, at + |OptNum(it.n)| + 1);
    }
  }

  /** skip passes over blanks only. */
  lemma {:induction false} SkipPasses(s: string, i: nat)
    ensures forall k | i <= k < Skip(s, i) :: At(s, k) == ' '
    decreases |s| - i
  {
    if At(s, i) == ' ' {
      SkipPasses(s, i + 1);
    }
  }

  /** gt_num's loop passes over digits and blanks only, and the number is their value. */
  lemma {:induction false} NumberPasses(s: string, i: nat, m: nat, seen: bool)
    requires i <= |s|
    ensures var (v, any, j) := Number(s, i, m, seen);
            && i <= j <= |s| && (forall k | i <= k < j :: s[k] == ' ' || '0' <= s[k] <= '9') && v == Val(s[i..j], m)
            && (any <==> seen || exists k :: i <= k < j && '0' <= s[k] <= '9')
    decreases |s| - i
  {
    var j := Number(s, i, m, seen).2;
    if At(s, i) == ' ' {
      NumberPasses(s, i + 1, m, seen);
      assert s[i..j][1..] == s[i + 1..j];
    } else if Digit(At(s, i)) {
      NumberPasses(s, i + 1, 10 * m + DigitValue(At(s, i)), true);
      assert s[i..j][1..] == s[i + 1..j];
    }
  }
}
