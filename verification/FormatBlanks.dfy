// Blanks inside the two-letter descriptors BN, BZ, SP, SS, TL and TR. Section 13.1.1 of
// ANSI X3.9-1978 gives blanks no meaning outside character constants and Hollerith data, but ne_d
// looks for the second letter directly behind the first.
module FormatBlanks {
  import opened Options
  import opened FormatCode
  import opened FormatParse
  import opened FormatSpelling
  import opened Seqs

  /** The text of it is not read as its tree: it is refused, it is read as something else, or nothing
      that could go on a list follows what is read. */
  ghost predicate Misread(s: string, i: nat, it: Spelled)
    requires Valid(it)
  {
    match ReadItem(s, i)
    case None => true
    case Some((item, j)) =>
      var k := Skip(s, j);
      item != Tree(it, i) || (At(s, k) != ')' && At(s, k) != ',' && ReadList(s, k) == None)
  }

  /** N where an item should start. */
  lemma NoItemAtN(s: string, i: nat)
    requires Letter(At(s, i), 'N')
    ensures Skip(s, i) == i && ReadList(s, i) == None
  {
    NumberEnds(s, i, 0, false);
    assert GtNum(s, i, 1) == Some((1, i));
    assert LexPlain(s, i) == NotOne && LexEdit(s, i) == NotOne;
    assert ReadItem(s, i) == None;
  }

  /** The letters around a gap. */
  lemma GapAt(s: string, i: nat, a: Cased, gap: nat, b: Cased)
    requires Has(s, i, Ch(a) + Second(gap, Some(b))) && 'A' <= a.upper <= 'Z' && 'A' <= b.upper <= 'Z' && gap > 0
    ensures Uppers(At(s, i), a.upper) && At(s, i + 1) == ' '
    ensures Skip(s, i + 1) == Skip(s, i + 2) == i + 1 + gap && Uppers(At(s, i + 1 + gap), b.upper)
  {
    HasParts(s, i, Ch(a), Second(gap, Some(b)));
    ChReads(s, i, a);
    HasParts(s, i + 1, Blanks(gap), Ch(b));
    HasFirst(s, i + 1, Blanks(gap));
    ChReads(s, i + 1 + gap, b);
    SkipBlanks(s, i + 1, gap);
  }

  lemma BlankMisread(s: string, i: nat, b: Cased, gap: nat, second: Cased)
    requires Valid(SBlank(b, gap, second)) && gap > 0 && Has(s, i, Text(SBlank(b, gap, second)))
    ensures Misread(s, i, SBlank(b, gap, second))
  {
    GapAt(s, i, b, gap, second);
    assert LexPlain(s, i) == GotFlag(BN, i + 2);
    assert ReadItem(s, i) == Some((Once(Flag(BN)), i + 2));
    if second.upper == 'N' {
      NoItemAtN(s, i + 1 + gap);
    }
  }

  lemma SignMisread(s: string, i: nat, c: Cased, gap: nat, mode: Option<Cased>)
    requires Valid(SSign(c, gap, mode)) && gap > 0 && mode.Some? && Has(s, i, Text(SSign(c, gap, mode)))
    ensures Misread(s, i, SSign(c, gap, mode))
  {
    GapAt(s, i, c, gap, mode.value);
    assert LexPlain(s, i) == GotFlag(S, i + 1);
  }

  lemma TabMisread(s: string, i: nat, t: Cased, gap: nat, dir: Option<Cased>, col: Num)
    requires Valid(STab(t, gap, dir, col)) && gap > 0 && dir.Some? && Has(s, i, Text(STab(t, gap, dir, col)))
    ensures ReadItem(s, i) == None
  {
    HasParts(s, i, Ch(t) + Second(gap, dir), col);
    GapAt(s, i, t, gap, dir.value);
    assert Letter(Next(s, i + 1), dir.value.upper);
    NumberEnds(s, i + 1, 0, false);
    assert LexPlain(s, i) == Bad;
  }

  lemma {:induction false} GapMisread(s: string, i: nat, it: Spelled, end: nat)
    requires Valid(it) && !Tight(it) && Has(s, i, Text(it)) && end == i + |Text(it)|
    ensures Misread(s, i, it)
    decreases Size(it), 0
  {
    match it {
      case SBlank(b, gap, second) => BlankMisread(s, i, b, gap, second);
      case SSign(c, gap, mode) => SignMisread(s, i, c, gap, mode);
      case STab(t, gap, dir, col) => TabMisread(s, i, t, gap, dir, col);
      case SGroup(_, body, trail) =>
        var j := GroupStarts(s, i, it, end);
        GapListMisread(s, j + 1, body, trail);
        GroupOf(s, i, Count(it.n), j);
      case _ =>
    }
  }

  lemma {:induction false} GroupOf(s: string, i: nat, n: nat, j: nat)
    requires LexPlain(s, i) == NotOne && LexEdit(s, i) == NotOne && GtNum(s, i, 1) == Some((n, j)) && At(s, j) == '('
    ensures ReadItem(s, i) == match ReadList(s, j + 1)
                              case None => None
                              case Some((body, k)) => Some((Group(n, body), Skip(s, k)))
  {}

  /** A list read as something else than its trees, or refused. */
  ghost predicate Wrong(got: Option<(seq<Item>, nat)>, trees: seq<Item>) { got.Some? ==> got.value.0 != trees }

  lemma {:induction false} GapListMisread(s: string, i: nat, es: seq<Entry>, trail: nat)
    requires ValidList(es) && !TightList(es) && Has(s, i, ListText(es) + Close(trail))
    ensures Wrong(ReadList(s, i), Trees(es, i))
    decreases SizeList(es), 1
  {
    SizesLess(es);
    if Tight(es[0].item) {
      GapBehind(s, i, es, trail);
    } else {
      GapInFirst(s, i, es, trail);
    }
  }

  lemma {:induction false} GapInFirst(s: string, i: nat, es: seq<Entry>, trail: nat)
    requires ValidList(es) && es != [] && !Tight(es[0].item) && Has(s, i, ListText(es) + Close(trail))
    ensures Wrong(ReadList(s, i), Trees(es, i))
    decreases SizeList(es), 0
  {
    SizesLess(es);
    var it, rest, trees, end := TreesOf(i, es, trail);
    var p := Planned(s, i, es, trail);
    GapMisread(s, p.i1, es[0].item, p.end);
    WrongFirst(s, i, p.i1, es[0].item, rest, trees);
  }

  lemma {:induction false} GapBehind(s: string, i: nat, es: seq<Entry>, trail: nat)
    requires ValidList(es) && es != [] && Tight(es[0].item) && !TightList(es) && Has(s, i, ListText(es) + Close(trail))
    ensures Wrong(ReadList(s, i), Trees(es, i))
    decreases SizeList(es), 0
  {
    SizesLess(es);
    var it, rest, trees, end := TreesOf(i, es, trail);
    var p, i2 := FirstReads(s, i, es, trail);
    assert !TightList(es[1..]) && ValidList(es[1..]);
    var got := GapRest(s, p.next, es[1..], trail, p.from, rest);
    WrongRest(s, i, p.i1, it, i2, p.i3, p.from, got, rest, trees);
  }

  lemma {:induction false} GapRest(s: string, next: nat, es: seq<Entry>, trail: nat, from: nat, trees: seq<Item>)
    returns (got: Option<(seq<Item>, nat)>)
    requires ValidList(es) && !TightList(es) && Has(s, next, ListText(es) + Close(trail))
    requires (from == next || from == next + es[0].lead) && trees == Trees(es, next)
    ensures got == ReadList(s, from) && Wrong(got, trees)
    decreases SizeList(es), 2
  {
    GapListMisread(s, next, es, trail);
    got := ReadList(s, next);
    if from != next {
      RestBlanks(s, next, es, trail, from, got);
    }
  }

  lemma {:induction false} WrongRest(
    s: string, i: nat, i1: nat, it: Item, i2: nat, i3: nat, from: nat, got: Option<(seq<Item>, nat)>, rest: seq<Item>,
    trees: seq<Item>)
    requires At(s, i) != '\0' && Skip(s, i) == i1 && At(s, i1) != ')' && At(s, i3) != ')'
    requires ReadItem(s, i1) == Some((it, i2)) && Skip(s, i2) == i3
    requires from == if At(s, i3) == ',' then i3 + 1 else i3
    requires ReadList(s, from) == got && Wrong(got, rest) && trees == [it] + rest
    ensures Wrong(ReadList(s, i), trees)
  {
    if got.Some? {
      StepMore(s, i, i1, it, i2, i3, from, got.value.0, got.value.1, [it] + got.value.0);
      assert ([it] + got.value.0)[1..] == got.value.0 && trees[1..] == rest;
    }
  }

  lemma {:induction false} WrongFirst(s: string, i: nat, i1: nat, it: Spelled, rest: seq<Item>, trees: seq<Item>)
    requires Valid(it) && At(s, i) != '\0' && Skip(s, i) == i1 && At(s, i1) != ')'
    requires Misread(s, i1, it) && trees == [Tree(it, i1)] + rest
    ensures Wrong(ReadList(s, i), trees)
  {
    assert trees[0] == Tree(it, i1);
    match ReadItem(s, i1)
    case None =>
    case Some((item, j)) =>
      if item != Tree(it, i1) {
        assert forall more: seq<Item> :: ([item] + more)[0] == item;
      }
  }

  /** A spelling with blanks in its two-letter descriptors is read as its tree if and only if there are none. */
  lemma ReadsExactly(lead: nat, es: seq<Entry>, trail: nat, after: string)
    requires ValidList(es)
    ensures ReadFormat(Blanks(lead) + "(" + (ListText(es) + Close(trail)) + after) == Some(Trees(es, lead + 1))
            <==> TightList(es)
  {
    if TightList(es) {
      SpellingReads(lead, es, trail, after);
    } else {
      var list := ListText(es) + Close(trail);
      var s := Blanks(lead) + "(" + list + after;
      Opening(s, lead, list, after);
      GapListMisread(s, lead + 1, es, trail);
    }
  }

  /** Both ways to go wrong: (B Z) is refused, and (S P) is read as S and a scale factor. */
  lemma BlankInsideName()
    ensures ReadFormat("(BZ)") == Some([Once(Flag(BZ))]) && ReadFormat("(B Z)") == None
    ensures ReadFormat("(SP)") == Some([Once(Flag(SP))])
    ensures ReadFormat("(S P)") == Some([Once(Flag(S)), Once(Flag(P(1)))])
  {
    OneFlag("(BZ)", BZ);
    OneFlag("(SP)", SP);
    RefusedBlank();
    MisreadSign();
  }

  lemma OneFlag(s: string, c: Ctl)
    requires s in {"(BZ)", "(SP)"} && c == if s == "(BZ)" then BZ else SP
    ensures ReadFormat(s) == Some([Once(Flag(c))])
  {
    assert LexPlain(s, 1) == GotFlag(c, 3);
    assert ReadItem(s, 1) == Some((Once(Flag(c)), 3));
    StepEnds(s, 1, 1, Once(Flag(c)), 3, 3, [Once(Flag(c))]);
  }

  lemma RefusedBlank()
    ensures ReadFormat("(B Z)") == None
  {
    var s := "(B Z)";
    assert LexPlain(s, 1) == GotFlag(BN, 3);
    assert ReadItem(s, 1) == Some((Once(Flag(BN)), 3));
    assert Number(s, 4, 0, false) == (0, false, 4);
    assert LexEdit(s, 3) == Bad;
    assert ReadItem(s, 3) == None;
    assert ReadList(s, 3) == None;
  }

  lemma MisreadSign()
    ensures ReadFormat("(S P)") == Some([Once(Flag(S)), Once(Flag(P(1)))])
  {
    var s := "(S P)";
    assert LexPlain(s, 3) == GotFlag(P(1), 4);
    assert ReadItem(s, 3) == Some((Once(Flag(P(1))), 4));
    StepEnds(s, 3, 3, Once(Flag(P(1))), 4, 4, [Once(Flag(P(1)))]);
    assert LexPlain(s, 1) == GotFlag(S, 2);
    assert ReadItem(s, 1) == Some((Once(Flag(S)), 2));
    assert Skip(s, 2) == 3;
    StepMore(s, 1, 1, Once(Flag(S)), 2, 3, 3, [Once(Flag(P(1)))], 5, [Once(Flag(S)), Once(Flag(P(1)))]);
  }
}
