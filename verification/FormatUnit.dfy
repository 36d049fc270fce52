// The state of fmt.c: the compiler pars_f, which fills f__syl from the text of
// a format, and the interpreter do_fio, which runs it item by item.
module FormatUnit {
  import opened Options
  import opened Seqs
  import opened FormatCode
  import opened FormatMachine
  import opened FormatControl
  import opened FormatDry
  import opened FormatParse
  import opened FormatScan

  /** Operations a format may compile to. */
  const SYLMX: nat := 300

  /** Result of a parsing step: the position reached, NULL, or "format too complicated",
      after which the program ends. */
  datatype Reply = Here(at: nat) | Null | Died

  // ----- what compiling a tree does to the globals -----

  /** The operations emitted so far, f__parenlvl and f__revloc. */
  datatype Gen = Gen(code: seq<Syl>, parenlvl: nat, revloc: int)

  function ItemOut(g: Gen, it: Item): Gen {
    g.(code := g.code + ItemCode(it, |g.code|),
       revloc := if g.parenlvl == 1 && it.Group? then |g.code| else g.revloc)
  }

  function ListOut(g: Gen, items: seq<Item>): Gen
    decreases |items|
  {
    if items == [] then g else ListOut(ItemOut(g, items[0]), items[1..])
  }

  function Emit(g: Gen, x: Syl): Gen { g.(code := g.code + [x]) }

  function Open(g: Gen, curloc: nat): Gen {
    Gen(g.code + [RET1(curloc)], g.parenlvl + 1, if g.parenlvl == 1 then curloc else g.revloc)
  }

  function Close(g: Gen): Gen
    requires g.parenlvl > 0
  {
    Gen(g.code + [if g.parenlvl == 1 then REVERT(g.revloc) else GOTO], g.parenlvl - 1, g.revloc)
  }

  lemma {:induction false} ListOutCode(g: Gen, items: seq<Item>)
    ensures var r := ListOut(g, items);
            && r.code == g.code + ListCode(items, |g.code|)
            && r.parenlvl == g.parenlvl
            && r.revloc == if g.parenlvl == 1 then RevertLoc(items, |g.code|, g.revloc) else g.revloc
    decreases |items|
  {
    if items == [] {
      assert g.code + [] == g.code;
    } else {
      var c := ItemCode(items[0], |g.code|);
      ListOutCode(ItemOut(g, items[0]), items[1..]);
      AppendAssoc(g.code, c, ListCode(items[1..], |g.code| + |c|));
    }
  }

  /** Inside a list, a group is its stacked count, its opening, its body and its closing. */
  lemma GroupOut(g: Gen, n: nat, body: seq<Item>)
    requires g.parenlvl > 0
    ensures var inside := Open(Emit(g, STACK(n)), |g.code|);
            && ListOut(inside, body).parenlvl > 0
            && Close(ListOut(inside, body)) == ItemOut(g, Group(n, body))
  {
    var inside := Open(Emit(g, STACK(n)), |g.code|);
    ListOutCode(inside, body);
    var inner := ListCode(body, |g.code| + 2);
    assert inside.code == g.code + [STACK(n), RET1(|g.code|)];
    AppendAssoc(g.code, [STACK(n), RET1(|g.code|)], inner);
    AppendAssoc(g.code, [STACK(n), RET1(|g.code|)] + inner, [GOTO]);
  }

  /** The whole format, inside from the empty state. */
  lemma FormatOut(items: seq<Item>)
    ensures var inside := Open(Gen([], 0, 0), 0);
            && ListOut(inside, items).parenlvl == 1
            && Close(ListOut(inside, items)).code == Compiled(items)
  {
    ListOutCode(Open(Gen([], 0, 0), 0), items);
  }

  /** The position and state a list should end in; None if its text is bad or it does not fit. */
  function ListGoal(s: string, i: nat, g: Gen): Option<(nat, Gen)>
    requires g.parenlvl > 0
  {
    match ReadList(s, i)
    case None => None
    case Some((items, j)) =>
      ListOutCode(g, items);
      Fitting(j, Close(ListOut(g, items)))
  }

  function Fitting(j: nat, g: Gen): Option<(nat, Gen)> {
    if |g.code| <= SYLMX then Some((j, g)) else None
  }

  function ItemGoal(s: string, i: nat, g: Gen): Option<(nat, Gen)> {
    match ReadItem(s, i)
    case None => None
    case Some((it, j)) => Fitting(j, ItemOut(g, it))
  }

  function GroupGoal(s: string, i: nat, g: Gen, curloc: nat): Option<(nat, Gen)> {
    var i0 := Skip(s, i);
    if At(s, i0) != '(' then None
    else
      match ListGoal(s, i0 + 1, Open(g, curloc))
      case None => None
      case Some((j, g')) => Some((Skip(s, j), g'))
  }

  ghost predicate Meets(p: Reply, g: Gen, goal: Option<(nat, Gen)>) {
    match goal
    case None => !p.Here?
    case Some((j, g')) => p == Here(j) && g == g'
  }

  /** A list at its closing parenthesis. */
  lemma ListGoalEnd(s: string, i: nat, g: Gen)
    requires g.parenlvl > 0 && At(s, i) != '\0' && At(s, Skip(s, i)) == ')'
    ensures ListGoal(s, i, g) == Fitting(Skip(s, i) + 1, Close(g))
  {
    assert ReadItems(s, Skip(s, i)) == Some(([], Skip(s, i) + 1));
  }

  /** A list that goes on with an item: what is left to do after the item. */
  lemma ListGoalStep(s: string, i: nat, g: Gen)
    requires g.parenlvl > 0 && At(s, i) != '\0' && At(s, Skip(s, i)) != ')'
    ensures match ItemGoal(s, Skip(s, i), g)
            case None => ListGoal(s, i, g) == None
            case Some((j, g1)) =>
              var k := Skip(s, j);
              && g1.parenlvl == g.parenlvl
              && ListGoal(s, i, g) ==
                   if At(s, k) == ')' then Fitting(k + 1, Close(g1))
                   else ListGoal(s, if At(s, k) == ',' then k + 1 else k, g1)
  {
    ReadListOn(s, i);
    match ReadItem(s, Skip(s, i))
    case None =>
    case Some((it, j)) =>
      var k := Skip(s, j);
      if At(s, k) == ')' {
        assert [it] + [] == [it];
        ListGoalOf(s, i, g, it, [], k + 1);
      } else {
        var r := ReadList(s, if At(s, k) == ',' then k + 1 else k);
        if r.Some? {
          ListGoalOf(s, i, g, it, r.value.0, r.value.1);
        }
      }
  }

  /** A list that is read as an item and the rest. */
  lemma ListGoalOf(s: string, i: nat, g: Gen, it: Item, rest: seq<Item>, j: nat)
    requires g.parenlvl > 0 && ReadList(s, i) == Some(([it] + rest, j))
    ensures var g1 := ItemOut(g, it);
            && g1.parenlvl == g.parenlvl && ListOut(g1, rest).parenlvl > 0
            && ListGoal(s, i, g) == Fitting(j, Close(ListOut(g1, rest)))
            && |g1.code| <= |Close(ListOut(g1, rest)).code|
  {
    assert ([it] + rest)[1..] == rest;
    ListOutCode(ItemOut(g, it), rest);
  }

  lemma ListGoalFits(s: string, i: nat, g: Gen)
    requires g.parenlvl > 0 && |g.code| > SYLMX
    ensures ListGoal(s, i, g) == None
  {
    var r := ReadList(s, i);
    if r.Some? {
      ListOutCode(g, r.value.0);
    }
  }

  /** An item that is neither kind of descriptor is a group or an error. */
  lemma ItemGoalGroup(s: string, i: nat, g: Gen)
    requires g.parenlvl > 0 && LexPlain(s, i).NotOne? && LexEdit(s, i).NotOne?
    ensures var (n, j) := GtNum(s, i, 1).value;
            ItemGoal(s, i, g) == GroupGoal(s, j, Emit(g, STACK(n)), |g.code|)
    ensures |g.code| >= SYLMX ==> ItemGoal(s, i, g) == None
  {
    var (n, j) := GtNum(s, i, 1).value;
    assert Skip(s, j) == j;
    if At(s, j) == '(' && ReadList(s, j + 1).Some? {
      GroupOut(g, n, ReadList(s, j + 1).value.0);
    }
  }

  /** The closing REVERT of code leads to a pass that presents again. */
  ghost predicate Returns(code: seq<Syl>, again: seq<Tok>) {
    && code != []
    && match code[|code| - 1]
       case REVERT(loc) => loc >= 0 && Completes(code, State(loc, [], []), again)
       case _ => false
  }

  lemma FirstStart(items: seq<Item>) returns (n: nat, fin: State)
    requires Sound(items) && Depth(items) <= 8
    ensures Ends(Compiled(items), State(0, [], []), n, Expand(items), fin)
    ensures Returns(Compiled(items), Expand(Reused(items)))
  {
    FirstPass(items);
    LaterPass(items);
    FormatLayout(items);
    assert Completes(Compiled(items), State(0, [], []), Expand(items));
    n, fin :| Ends(Compiled(items), State(0, [], []), n, Expand(items), fin);
  }

  lemma LaterStart(code: seq<Syl>, again: seq<Tok>, loc: int) returns (n: nat, fin: State)
    requires Returns(code, again) && code[|code| - 1] == REVERT(loc)
    ensures loc >= 0 && Ends(code, State(loc, [], []), n, again, fin)
  {
    assert Completes(code, State(loc, [], []), again);
    n, fin :| Ends(code, State(loc, [], []), n, again, fin);
  }

  // ----- whole statements -----

  /** The items of successive calls of do_fio. */
  function Groups(calls: seq<(int, int, int)>): seq<seq<int>> {
    if calls == [] then [] else [Addresses(calls[0].1, calls[0].2, calls[0].0)] + Groups(calls[1..])
  }

  /** What i_tem should reach at position i: at a closing parenthesis it reads nothing. */
  function EntryGoal(s: string, i: nat, g: Gen): Option<(nat, Gen)> {
    if At(s, i) == ')' then Some((i, g)) else ItemGoal(s, i, g)
  }

  /** What f_list should reach from position k after an item. */
  function SeparatorGoal(s: string, k: nat, g: Gen): Option<(nat, Gen)>
    requires g.parenlvl > 0
  {
    if At(s, k) == ')' then Fitting(k + 1, Close(g))
    else ListGoal(s, if At(s, k) == ',' then k + 1 else k, g)
  }

  /** One round of f_list: an entry, then a separator. */
  lemma ListGoalRound(s: string, i: nat, g: Gen)
    requires g.parenlvl > 0 && At(s, i) != '\0'
    ensures var entry := EntryGoal(s, Skip(s, i), g);
            && (entry.None? ==> ListGoal(s, i, g) == None)
            && (entry.Some? ==>
                  && entry.value.1.parenlvl == g.parenlvl
                  && ListGoal(s, i, g) == SeparatorGoal(s, Skip(s, entry.value.0), entry.value.1))
  {
    if At(s, Skip(s, i)) == ')' {
      ListGoalEnd(s, i, g);
      assert Skip(s, Skip(s, i)) == Skip(s, i);
    } else {
      ListGoalStep(s, i, g);
    }
  }

  class Unit {
    const syl: array<Syl>
    var pc: nat
    var parenlvl: nat
    var revloc: int

    const cnt: array<int>
    const ret: array<int>
    var cp: nat
    var rp: nat
    var workdone: bool
    var flags: Flags
    /** The calls made on the transfer side so far. */
    var trace: seq<Event>

    /** The format compiled last, its code, and what a reversion presents. */
    ghost var format: seq<Item>
    ghost var program: seq<Syl>
    ghost var again: seq<Tok>
    /** What the machine still presents of the current pass: the descriptors todo, in left
        operations, ending at the closing REVERT in state last. */
    ghost var todo: seq<Tok>
    ghost var left: nat
    ghost var last: State

    constructor ()
      ensures fresh(syl) && fresh(cnt) && fresh(ret) && cnt != ret
      ensures Compiling() && cnt.Length == STKSZ && ret.Length == STKSZ
      ensures trace == []
    {
      syl := new Syl[SYLMX];
      cnt := new int[STKSZ];
      ret := new int[STKSZ];
      pc, parenlvl, revloc, cp, rp := 0, 0, 0, 0, 0;
      workdone, flags, trace := false, Flags(false, false, 0, false), [];
      format, program, again, todo, left, last := [], [], [], [], 0, State(0, [], []);
    }

    ghost predicate Compiling()
      reads this, syl
    {
      syl.Length == SYLMX && pc <= SYLMX
    }

    ghost function Now(): (g: Gen)
      requires Compiling()
      reads this, syl
      ensures |g.code| == pc
    {
      Gen(syl[..pc], parenlvl, revloc)
    }

    /** op_gen; false is the exit on "format too complicated". */
    method OpGen(x: Syl) returns (ok: bool)
      requires Compiling()
      modifies this`pc, syl
      ensures Compiling() && ok == (old(pc) < SYLMX)
      ensures Now() == if ok then Emit(old(Now()), x) else old(Now())
    {
      if pc >= SYLMX {
        return false;
      }
      syl[pc] := x;
      pc := pc + 1;
      ok := true;
    }

    /** ne_d: found says whether a nonrepeatable descriptor starts at i. */
    method Ne_d(s: string, i: nat) returns (found: bool, p: Reply)
      requires Compiling()
      modifies this`pc, syl
      ensures Compiling()
      ensures found == !LexPlain(s, i).NotOne?
      ensures match LexPlain(s, i)
              case NotOne => Now() == old(Now())
              case Bad => p == Null
              case Got(it, j) => Meets(p, Now(), Fitting(j, ItemOut(old(Now()), it)))
    {
      var lexed := ScanPlain(s, i);
      match lexed
      case NotOne => found, p := false, Null;
      case Bad => found, p := true, Null;
      case Got(it, j) =>
        var ok := OpGen(PlainSyl(it.p));
        found, p := true, if ok then Here(j) else Died;
    }

    /** e_d: emits the repeat count first and takes it back when no descriptor follows. */
    method E_d(s: string, i: nat) returns (found: bool, p: Reply)
      requires Compiling()
      modifies this`pc, syl
      ensures Compiling()
      ensures old(pc) >= SYLMX ==> found && p == Died
      ensures old(pc) < SYLMX ==>
                && found == !LexEdit(s, i).NotOne?
                && match LexEdit(s, i)
                   case NotOne => Now() == old(Now())
                   case Bad => p == Null
                   case Got(it, j) => Meets(p, Now(), Fitting(j, ItemOut(old(Now()), it)))
    {
      var n := ScanNumber(s, i, 1);
      var ok := OpGen(STACK(n.value.0));
      if !ok {
        return true, Died;
      }
      var lexed := ScanEdit(s, i);
      match lexed
      case NotOne =>
        pc := pc - 1;
        found, p := false, Null;
      case Bad =>
        found, p := true, Null;
      case Got(it, j) =>
        if it.Edit? {
          ok := OpGen(ED(it.ed));
        }
        found, p := true, if ok then Here(j) else Died;
    }

    /** f_s: a parenthesised list whose repeat count, if any, was stacked at curloc. */
    method F_s(s: string, i: nat, curloc: nat) returns (p: Reply)
      requires Compiling()
      modifies this`pc, this`parenlvl, this`revloc, syl
      ensures Compiling()
      ensures Meets(p, Now(), GroupGoal(s, i, old(Now()), curloc))
      decreases |s| - i, 0
    {
      var i0 := Skip(s, i);
      if At(s, i0) != '(' {
        return Null;
      }
      if parenlvl == 1 {
        revloc := curloc;
      }
      parenlvl := parenlvl + 1;
      var ok := OpGen(RET1(curloc));
      if !ok {
        ListGoalFits(s, i0 + 1, Open(old(Now()), curloc));
        return Died;
      }
      p := F_list(s, i0 + 1);
      if p.Here? {
        p := Here(Skip(s, p.at));
      }
    }

    /** f_list at a closing parenthesis. */
    method CloseList(i: nat) returns (p: Reply)
      requires Compiling() && parenlvl > 0
      modifies this`pc, this`parenlvl, syl
      ensures Compiling() && Meets(p, Now(), Fitting(i + 1, Close(old(Now()))))
    {
      parenlvl := parenlvl - 1;
      var ok := OpGen(if parenlvl == 0 then REVERT(revloc) else GOTO);
      p := if ok then Here(i + 1) else Died;
    }

    /** f_list: items up to the closing parenthesis. */
    method F_list(s: string, start: nat) returns (p: Reply)
      requires Compiling() && parenlvl > 0
      modifies this`pc, this`parenlvl, this`revloc, syl
      ensures Compiling()
      ensures Meets(p, Now(), ListGoal(s, start, old(Now())))
      decreases |s| - start, 3
    {
      p := Null;
      var i, done := start, false;
      while At(s, i) != '\0' && !done
        invariant Compiling() && start <= i
        invariant !done ==> parenlvl > 0 && ListGoal(s, i, Now()) == ListGoal(s, start, old(Now()))
        invariant done ==> Meets(p, Now(), ListGoal(s, start, old(Now())))
        decreases !done, |s| - i
      {
        done, p, i := ListRound(s, i);
      }
      if !done {
        p := Null;
      }
    }

    /** One round of f_list's loop; done if the list is closed or bad. */
    method ListRound(s: string, start: nat) returns (done: bool, p: Reply, i: nat)
      requires Compiling() && parenlvl > 0 && At(s, start) != '\0'
      modifies this`pc, this`parenlvl, this`revloc, syl
      ensures Compiling() && start <= i
      ensures done ==> Meets(p, Now(), ListGoal(s, start, old(Now())))
      ensures !done ==> parenlvl > 0 && start < i && ListGoal(s, i, Now()) == ListGoal(s, start, old(Now()))
      decreases |s| - start, 2
    {
      ListGoalRound(s, start, Now());
      p := I_tem(s, Skip(s, start));
      if p.Here? {
        done, p, i := Separator(s, p.at);
      } else {
        done, i := true, start;
      }
    }

    /** What follows an item: a comma, the end of the list, or the next item. */
    method Separator(s: string, at: nat) returns (done: bool, p: Reply, i: nat)
      requires Compiling() && parenlvl > 0
      modifies this`pc, this`parenlvl, this`revloc, syl
      ensures Compiling() && at <= i && (done <==> At(s, Skip(s, at)) == ')')
      ensures done ==> Meets(p, Now(), SeparatorGoal(s, Skip(s, at), old(Now())))
      ensures !done ==> Now() == old(Now()) && ListGoal(s, i, Now()) == SeparatorGoal(s, Skip(s, at), Now())
    {
      done, p, i := false, Null, Skip(s, at);
      if At(s, i) == ',' {
        i := i + 1;
      } else if At(s, i) == ')' {
        p := CloseList(i);
        done := true;
      }
    }

    /** i_tem: one item, or nothing at a closing parenthesis. */
    method I_tem(s: string, i: nat) returns (p: Reply)
      requires Compiling() && parenlvl > 0
      modifies this`pc, this`parenlvl, this`revloc, syl
      ensures Compiling()
      ensures Meets(p, Now(), EntryGoal(s, i, old(Now())))
      decreases |s| - i, 1
    {
      if At(s, i) == ')' {
        return Here(i);
      }
      var found;
      found, p := Ne_d(s, i);
      if found {
        return;
      }
      found, p := E_d(s, i);
      if found {
        return;
      }
      ItemGoalGroup(s, i, Now());
      var n := ScanNumber(s, i, 1);
      var curloc := pc;
      var ok := OpGen(STACK(n.value.0));
      if !ok {
        return Died;
      }
      p := F_s(s, n.value.1, curloc);
    }

    /** pars_f. */
    method Pars_f(s: string) returns (ok: bool)
      requires Compiling()
      modifies this`pc, this`parenlvl, this`revloc, this`format, syl
      ensures Compiling()
      ensures ok == (ReadFormat(s).Some? && |Compiled(ReadFormat(s).value)| <= 300)
      ensures ok ==> format == ReadFormat(s).value && syl[..pc] == Compiled(format)
    {
      parenlvl, revloc, pc := 0, 0, 0;
      assert Now() == Gen([], 0, 0);
      var p := F_s(s, 0, 0);
      ok := p.Here?;
      if ReadFormat(s).Some? {
        format := ReadFormat(s).value;
        FormatOut(format);
      }
    }

    // ----- the interpreter -----

    ghost predicate Stacks()
      reads this`cp, this`rp, cnt, ret
    {
      cnt.Length == STKSZ && ret.Length == STKSZ && cnt != ret && cp < STKSZ && rp < STKSZ
    }

    ghost function Machine(): State
      requires Stacks()
      reads this`pc, this`cp, this`rp, cnt, ret
    {
      State(pc, cnt[1..cp + 1], ret[1..rp + 1])
    }

    /** The program is in f__syl, its closing REVERT leads to a pass that presents again,
        and the machine stands in the middle of a pass. */
    ghost predicate Poised()
      reads this`pc, this`cp, this`rp, this`program, this`again, this`todo, this`left, this`last, syl, cnt, ret
    {
      && Stacks() && syl.Length == SYLMX
      && 0 < |program| <= SYLMX && syl[..|program|] == program
      && Returns(program, again)
      && Ends(program, Machine(), left, todo, last)
    }

    ghost function Standing(): Place
      reads this
    {
      Place(todo, workdone, flags, trace)
    }

    /** The machine at the start of code. */
    method Start(ghost code: seq<Syl>, ghost loop: seq<Tok>, ghost toks: seq<Tok>, ghost n: nat, ghost fin: State)
      requires cnt.Length == STKSZ && ret.Length == STKSZ && cnt != ret && syl.Length == SYLMX
      requires 0 < |code| <= SYLMX && syl[..|code|] == code
      requires Returns(code, loop) && Ends(code, State(0, [], []), n, toks, fin)
      modifies this`cp, this`rp, this`pc, cnt, ret, this`program, this`again, this`todo, this`left, this`last
      ensures Poised() && again == loop && todo == toks
    {
      cp, rp, pc := 0, 0, 0;
      cnt[0], ret[0] := 0, 0;
      assert Machine() == State(0, [], []);
      program, again, todo, left, last := code, loop, toks, n, fin;
    }

    /** fmt_bg, after s_wsfe has reset the flags. */
    method Fmt_bg(cblank: bool)
      requires cnt.Length == STKSZ && ret.Length == STKSZ && cnt != ret && syl.Length == SYLMX
      requires |Compiled(format)| <= SYLMX && syl[..|Compiled(format)|] == Compiled(format)
      requires Sound(format) && Depth(format) <= 8
      modifies this`workdone, this`cp, this`rp, this`pc, this`flags, cnt, ret
      modifies this`program, this`again, this`todo, this`left, this`last
      ensures Poised() && again == Expand(Reused(format))
      ensures Standing() == Place(Expand(format), false, Flags(false, false, 0, cblank), old(trace))
    {
      ghost var n, fin := FirstStart(format);
      workdone, flags := false, Flags(false, false, 0, cblank);
      Start(Compiled(format), Expand(Reused(format)), Expand(format), n, fin);
    }

    /** STACK. */
    method Stack(n: int)
      requires Poised() && syl[pc] == STACK(n) && pc < |program|
      modifies this`cp, this`pc, this`left, cnt
      ensures Poised() && left == old(left) - 1
    {
      EndsStep(program, Machine(), left, todo, last);
      cp := cp + 1;
      cnt[cp] := n;
      pc := pc + 1;
      left := left - 1;
      assert Machine() == old(State(pc + 1, Push(Machine().cnt, n), Machine().ret));
    }

    /** RET1. */
    method Ret1(loc: int)
      requires Poised() && syl[pc] == RET1(loc) && pc < |program|
      modifies this`rp, this`pc, this`left, ret
      ensures Poised() && left == old(left) - 1
    {
      EndsStep(program, Machine(), left, todo, last);
      rp := rp + 1;
      ret[rp] := loc;
      pc := pc + 1;
      left := left - 1;
      assert Machine() == old(State(pc + 1, Machine().cnt, Push(Machine().ret, loc)));
    }

    /** GOTO. */
    method Goto()
      requires Poised() && syl[pc] == GOTO && pc < |program|
      modifies this`cp, this`rp, this`pc, this`left, cnt
      ensures Poised() && left == old(left) - 1 && Quiet(Machine()) == old(Step(program, Machine()))
    {
      EndsStep(program, Machine(), left, todo, last);
      CountDown();
      left := left - 1;
    }

    /** What GOTO does to the stacks. */
    method CountDown()
      requires Stacks() && cp > 0 && rp > 0 && (cnt[cp] - 1 > 0 ==> 1 + ret[rp] >= 0)
      modifies this`cp, this`rp, this`pc, cnt
      ensures Stacks()
      ensures Machine() == old(if cnt[cp] - 1 <= 0 then State(pc + 1, Pop(Machine().cnt), Pop(Machine().ret))
                               else State(1 + ret[rp], SetTop(Machine().cnt, cnt[cp] - 1), Pop(Machine().ret)))
    {
      cnt[cp] := cnt[cp] - 1;
      if cnt[cp] <= 0 {
        cp := cp - 1;
        rp := rp - 1;
        pc := pc + 1;
      } else {
        pc := 1 + ret[rp];
        rp := rp - 1;
      }
    }

    /** REVERT: both stacks emptied, at the part to be reused. */
    method Revert(loc: int)
      requires Poised() && syl[pc] == REVERT(loc) && pc < |program|
      modifies this`cp, this`rp, this`pc, this`left, this`todo, this`last
      ensures Poised() && todo == again && old(todo) == []
    {
      EndsStep(program, Machine(), left, todo, last);
      ghost var n, fin := LaterStart(program, again, loc);
      rp, cp := 0, 0;
      pc := loc;
      assert Machine() == State(loc, [], []);
      todo, left, last := again, n, fin;
    }

    /** ED on an exhausted repeat count. */
    method Used()
      requires Poised() && syl[pc].ED? && pc < |program| && cp > 0 && cnt[cp] <= 0
      modifies this`cp, this`pc, this`left
      ensures Poised() && left == old(left) - 1
    {
      EndsStep(program, Machine(), left, todo, last);
      cp := cp - 1;
      pc := pc + 1;
      left := left - 1;
      assert Machine() == old(State(pc + 1, Pop(Machine().cnt), Machine().ret));
    }

    /** ED on a repeat count that is left: f__doed gets the item. */
    method Edit_(e: Ed, x: int)
      requires Poised() && syl[pc] == ED(e) && pc < |program| && cp > 0 && cnt[cp] > 0
      modifies this`left, this`todo, this`workdone, this`trace, cnt
      ensures Poised()
      ensures old(todo) == [Data(e)] + todo
      ensures Standing() == old(Place(todo[1..], true, flags, trace + [Edited(e, x, flags)]))
    {
      EndsStep(program, Machine(), left, todo, last);
      workdone := true;
      trace := trace + [Edited(e, x, flags)];
      cnt[cp] := cnt[cp] - 1;
      todo, left := todo[1..], left - 1;
      assert Machine() == old(Machine().(cnt := SetTop(Machine().cnt, Top(Machine().cnt) - 1)));
    }

    /** NED (with f__doned), COLON and the flag operations. */
    method Advance(p: Plain)
      requires Poised() && syl[pc] == PlainSyl(p) && pc < |program|
      modifies this`pc, this`left, this`todo, this`trace, this`flags
      ensures Poised() && left == old(left) - 1
      ensures old(todo) == [Act(p)] + todo
      ensures Standing() == old(match p
                                case Move(d) => Standing().(todo := todo[1..], trace := trace + [Moved(d, flags)])
                                case Flag(c) => Standing().(todo := todo[1..], flags := SetFlag(flags, c))
                                case Stop => Standing().(todo := todo[1..]))
    {
      EndsStep(program, Machine(), left, todo, last);
      match p {
        case Move(d) => trace := trace + [Moved(d, flags)];
        case Flag(c) => flags := SetFlag(flags, c);
        case Stop =>
      }
      pc := pc + 1;
      todo, left := todo[1..], left - 1;
      assert Machine() == old(Machine().(pc := pc + 1));
    }

    /** f__doend. */
    method End()
      requires Poised()
      modifies this`trace
      ensures Poised() && Standing() == old(Standing().(trace := trace + [Ended(flags)]))
    {
      trace := trace + [Ended(flags)];
    }

    /** f__dorevert, after a pass that did some work. */
    method Dorevert()
      requires Poised() && workdone
      modifies this`trace, this`workdone
      ensures Poised() && Standing() == old(Standing().(trace := trace + [Reverted], workdone := false))
    {
      trace := trace + [Reverted];
      workdone := false;
    }

    /** Between operations the machine stands on one, with a repeat count for every ED. */
    ghost predicate AtOp()
      reads this`pc, this`cp, this`rp, this`program, this`todo, syl, cnt, ret
    {
      && Stacks() && syl.Length == SYLMX && pc < |program| && pc < SYLMX
      && match syl[pc]
         case ED(e) => cp > 0 && (cnt[cp] > 0 ==> todo != [] && todo[0] == Data(e))
         case COLON => todo != [] && todo[0] == Act(Stop)
         case _ => true
    }

    lemma AtOperation()
      requires Poised()
      ensures AtOp()
    {
      EndsStep(program, Machine(), left, todo, last);
    }

    /** The operations that present nothing: STACK, RET1, GOTO, and ED on a used-up count. */
    method Settle()
      requires Poised()
      modifies this`cp, this`rp, this`pc, this`left, cnt, ret
      ensures Poised() && pc < |program|
      ensures !(syl[pc].STACK? || syl[pc].RET1? || syl[pc].GOTO?)
      ensures syl[pc].ED? ==> cp > 0 && cnt[cp] > 0 && todo != [] && todo[0] == Data(syl[pc].ed)
      ensures syl[pc].COLON? ==> todo != [] && todo[0] == Act(Stop)
      ensures left <= old(left)
    {
      while true
        invariant Poised() && left <= old(left)
        decreases left
      {
        AtOperation();
        match syl[pc]
        case STACK(n) => Stack(n);
        case RET1(loc) => Ret1(loc);
        case GOTO => Goto();
        case ED(_) =>
          if cnt[cp] > 0 {
            return;
          }
          Used();
        case _ => return;
      }
    }

    /** The switch of do_fio, up to the next descriptor. */
    method Operate(item: Option<int>) returns (status: Option<Status>)
      requires Poised()
      modifies this`workdone, this`cp, this`rp, this`pc, this`flags, this`trace, cnt, ret
      modifies this`todo, this`left, this`last
      ensures Poised()
      ensures (Standing(), status) == Hop(again, old(Standing()), item)
      ensures status.None? ==> (old(workdone) && !workdone) || (workdone == old(workdone) && left < old(left))
    {
      Settle();
      match syl[pc] {
        case NED(d) => status := Pass(Move(d), item);
        case COLON => status := Pass(Stop, item);
        case CTL(c) => status := Pass(Flag(c), item);
        case ED(e) =>
          if item.None? {
            End();
            return Some(Finished);
          }
          Edit_(e, item.value);
          return Some(Transferred);
        case REVERT(loc) => status := GoBack(loc, item);
      }
    }

    /** The closing parenthesis: the transfer ends, or a reversion, unless the pass did no work. */
    method GoBack(loc: int, item: Option<int>) returns (status: Option<Status>)
      requires Poised() && syl[pc] == REVERT(loc) && pc < |program|
      modifies this`workdone, this`cp, this`rp, this`pc, this`trace, this`todo, this`left, this`last
      ensures Poised()
      ensures (Standing(), status) == Hop(again, old(Standing()), item)
      ensures status.None? ==> old(workdone) && !workdone
    {
      Revert(loc);
      if item.None? {
        End();
        return Some(Finished);
      }
      if !workdone {
        return Some(Dry);
      }
      Dorevert();
      return None;
    }

    /** The descriptors that take no item; a colon ends the transfer if none is left. */
    method Pass(p: Plain, item: Option<int>) returns (status: Option<Status>)
      requires Poised() && syl[pc] == PlainSyl(p) && pc < |program| && (p.Stop? ==> todo != [] && todo[0] == Act(Stop))
      modifies this`pc, this`left, this`todo, this`trace, this`flags
      ensures Poised()
      ensures (Standing(), status) == Hop(again, old(Standing()), item)
      ensures status.None? ==> workdone == old(workdone) && left < old(left)
    {
      if p.Stop? && item.None? {
        End();
        return Some(Finished);
      }
      Advance(p);
      return None;
    }

    /** One round of do_fio's for loop: run until the item is edited, or the transfer ends. */
    method Item_fio(item: Option<int>) returns (status: Status)
      requires Poised()
      modifies this`workdone, this`cp, this`rp, this`pc, this`flags, this`trace, cnt, ret
      modifies this`todo, this`left, this`last
      ensures Poised()
      ensures (Standing(), status) == Next(again, old(Standing()), item)
    {
      var done: Option<Status> := None;
      while done.None?
        invariant Poised()
        invariant match done
                  case None => Next(again, Standing(), item) == Next(again, old(Standing()), item)
                  case Some(s) => (Standing(), s) == Next(again, old(Standing()), item)
        decreases done.None?, workdone, left
      {
        done := Operate(item);
      }
      status := done.value;
    }

    /** do_fio with data. */
    method Do_fio(number: int, ptr: int, len: int) returns (status: Status)
      requires Poised()
      modifies this`workdone, this`cp, this`rp, this`pc, this`flags, this`trace, cnt, ret
      modifies this`todo, this`left, this`last
      ensures Poised()
      ensures (Standing(), status) == Transfer(again, old(Standing()), Addresses(ptr, len, number))
    {
      var i, p := 0, ptr;
      while i < number
        invariant Poised()
        invariant Transfer(again, Standing(), Addresses(p, len, number - i))
               == Transfer(again, old(Standing()), Addresses(ptr, len, number))
      {
        assert Addresses(p, len, number - i)[1..] == Addresses(p + len, len, number - (i + 1));
        status := Item_fio(Some(p));
        if status != Transferred {
          return;
        }
        i, p := i + 1, p + len;
      }
      status := Transferred;
    }

    /** en_fio. */
    method En_fio()
      requires Poised()
      modifies this`workdone, this`cp, this`rp, this`pc, this`flags, this`trace, cnt, ret
      modifies this`todo, this`left, this`last
      ensures Poised()
      ensures trace == old(trace + Closing(todo, flags))
    {
      NextCloses(again, Standing());
      var status := Item_fio(None);
    }

    /** A formatted WRITE: s_wsfe's part of the format, the do_fio calls for the data, en_fio.
        The calls made are those section 13.3 prescribes for the format and the whole item list, however it
        was split; DryEvents gives them for a format that cannot take all the items. False: the format is
        refused. */
    method Write(s: string, cblank: bool, calls: seq<(int, int, int)>) returns (ok: bool)
      requires Compiling() && cnt.Length == STKSZ && ret.Length == STKSZ && cnt != ret
      requires ReadFormat(s).Some? ==> Sound(ReadFormat(s).value) && Depth(ReadFormat(s).value) <= 8
      modifies this, syl, cnt, ret
      ensures ok == (ReadFormat(s).Some? && |Compiled(ReadFormat(s).value)| <= 300)
      ensures !ok ==> trace == old(trace)
      ensures ok ==>
                trace == old(trace) + Prescribed(ReadFormat(s).value, Flags(false, false, 0, cblank), Groups(calls))
    {
      ok := Pars_f(s);
      if !ok {
        return;
      }
      Fmt_bg(cblank);
      Prescribes(format, flags, trace, Groups(calls));
      Transfers(calls);
      En_fio();
    }

    /** The do_fio calls of a statement. */
    method Transfers(calls: seq<(int, int, int)>)
      requires Poised()
      modifies this`workdone, this`cp, this`rp, this`pc, this`flags, this`trace, cnt, ret
      modifies this`todo, this`left, this`last
      ensures Poised() && Standing() == Calls(again, old(Standing()), Groups(calls))
    {
      var i := 0;
      while i < |calls|
        invariant 0 <= i <= |calls| && Poised()
        invariant Calls(again, Standing(), Groups(calls[i..])) == Calls(again, old(Standing()), Groups(calls))
      {
        var (number, ptr, len) := calls[i];
        assert calls[i..][1..] == calls[i + 1..];
        assert Groups(calls[i..])[1..] == Groups(calls[i + 1..]);
        var status := Do_fio(number, ptr, len);
        i := i + 1;
      }
    }
  }
}
