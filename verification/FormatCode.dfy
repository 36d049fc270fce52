// The format code of libf2c: the operations pars_f emits into f__syl, the
// format tree they stand for, and the layout of the code of a tree.
module FormatCode {
  import opened Seqs

  /** Edit descriptors that move characters or the cursor but no list item (type_f's NED). */
  datatype Ned =
    | X(n: int) | Slash | Apos(at: int) | H(n: int, at: int)
    | T(n: int) | TL(n: int) | TR(n: int)

  /** Descriptors that only set a flag of the transfer. */
  datatype Ctl = Nonl | S | SS | SP | P(n: int) | BN | BZ

  /** Edit descriptors that transfer one list item (type_f's ED). */
  datatype Ed =
    | I(w: int) | IM(w: int, m: int) | O(w: int) | OM(w: int, m: int) | Z(w: int) | ZM(w: int, m: int)
    | L(w: int) | A | AW(w: int)
    | F(w: int, d: int) | D(w: int, d: int)
    | E(w: int, d: int) | EE(w: int, d: int, e: int) | G(w: int, d: int) | GE(w: int, d: int, e: int)

  /** One operation of the compiled format (struct syl). */
  datatype Syl =
    | RET1(loc: int) | REVERT(loc: int) | GOTO | STACK(n: int)
    | NED(ned: Ned) | CTL(ctl: Ctl) | COLON | ED(ed: Ed)

  /** What a format item asks for once: a nonrepeatable descriptor, a flag, or a colon. */
  datatype Plain = Move(ned: Ned) | Flag(ctl: Ctl) | Stop

  /** A format item. Bare is what e_d leaves of a descriptor with field width 0:
      a repeat count with no operation to use it. */
  datatype Item =
    | Once(p: Plain)
    | Edit(n: nat, ed: Ed)
    | Bare(n: nat)
    | Group(n: nat, body: seq<Item>)

  function PlainSyl(p: Plain): Syl {
    match p
    case Move(d) => NED(d)
    case Flag(c) => CTL(c)
    case Stop => COLON
  }

  function ItemCode(it: Item, base: nat): seq<Syl>
    decreases it
  {
    match it
    case Once(p) => [PlainSyl(p)]
    case Edit(n, e) => [STACK(n), ED(e)]
    case Bare(n) => [STACK(n)]
    case Group(n, body) => [STACK(n), RET1(base)] + ListCode(body, base + 2) + [GOTO]
  }

  function ListCode(items: seq<Item>, base: nat): seq<Syl>
    decreases items
  {
    if items == [] then []
    else
      var c := ItemCode(items[0], base);
      c + ListCode(items[1..], base + |c|)
  }

  /** Where a reversion resumes: the last top-level group, or loc if there is none. */
  function RevertLoc(items: seq<Item>, base: nat, loc: int): int
    decreases |items|
  {
    if items == [] then loc
    else RevertLoc(items[1..], base + |ItemCode(items[0], base)|, if items[0].Group? then base else loc)
  }

  function Compiled(items: seq<Item>): seq<Syl> {
    [RET1(0)] + ListCode(items, 1) + [REVERT(RevertLoc(items, 1, 0))]
  }

  /** Every item with a repeat count has an operation to repeat (field widths are not 0). */
  predicate Sound(items: seq<Item>)
    decreases items
  {
    items == [] || (SoundItem(items[0]) && Sound(items[1..]))
  }

  predicate SoundItem(it: Item)
    decreases it
  {
    match it
    case Bare(_) => false
    case Group(_, body) => Sound(body)
    case _ => true
  }

  function Max(a: nat, b: nat): nat { if a < b then b else a }

  /** Nesting depth of the groups in a list. */
  function Depth(items: seq<Item>): nat
    decreases items
  {
    if items == [] then 0 else Max(ItemDepth(items[0]), Depth(items[1..]))
  }

  function ItemDepth(it: Item): nat
    decreases it
  {
    match it
    case Group(_, body) => 1 + Depth(body)
    case _ => 0
  }

  lemma ListCodeCons(it: Item, rest: seq<Item>, base: nat)
    ensures ListCode([it] + rest, base) == ItemCode(it, base) + ListCode(rest, base + |ItemCode(it, base)|)
  {
    assert ([it] + rest)[1..] == rest;
  }

  lemma {:induction false} ListCodeAppend(a: seq<Item>, b: seq<Item>, base: nat)
    ensures ListCode(a + b, base) == ListCode(a, base) + ListCode(b, base + |ListCode(a, base)|)
    decreases |a|
  {
    if a == [] {
      assert a + b == b;
    } else {
      var c := ItemCode(a[0], base);
      var L := ListCode(a[1..], base + |c|);
      var M := ListCode(b, base + |c| + |L|);
      ListCodeAppend(a[1..], b, base + |c|);
      calc {
        ListCode(a + b, base);
        { AppendCons(a, b); }
        ListCode([a[0]] + (a[1..] + b), base);
        { ListCodeCons(a[0], a[1..] + b, base); }
        c + (L + M);
        { AppendAssoc(c, L, M); }
        (c + L) + M;
      }
      assert ListCode(a, base) == c + L;
    }
  }

  lemma {:induction false} RevertLocAppend(a: seq<Item>, b: seq<Item>, base: nat, loc: int)
    ensures RevertLoc(a + b, base, loc)
         == RevertLoc(b, base + |ListCode(a, base)|, RevertLoc(a, base, loc))
    decreases |a|
  {
    if a == [] {
      assert a + b == b;
    } else {
      var c := ItemCode(a[0], base);
      assert (a + b)[0] == a[0] && (a + b)[1..] == a[1..] + b;
      RevertLocAppend(a[1..], b, base + |c|, if a[0].Group? then base else loc);
    }
  }
}
