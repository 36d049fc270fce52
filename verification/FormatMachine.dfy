// The stack machine of do_fio, one operation at a time, and the proof that
// running the code of a format presents the descriptors of its tree with
// every repeat count expanded.
module FormatMachine {
  import opened Options
  import opened Seqs
  import opened FormatCode

  /** Slots of f__cnt and f__ret; slot 0 of each is never popped. */
  const STKSZ: nat := 10

  /** f__pc and the live parts f__cnt[1..f__cp+1], f__ret[1..f__rp+1]. */
  datatype State = State(pc: nat, cnt: seq<int>, ret: seq<int>)

  /** A descriptor as the machine meets it. */
  datatype Tok = Act(p: Plain) | Data(ed: Ed)

  datatype Outcome = Quiet(st: State) | Show(tok: Tok, st: State) | AtRevert | Stuck

  function Push(s: seq<int>, x: int): seq<int> { s + [x] }

  function Pop(s: seq<int>): seq<int>
    requires s != []
  {
    s[..|s| - 1]
  }

  function Top(s: seq<int>): int
    requires s != []
  {
    s[|s| - 1]
  }

  function SetTop(s: seq<int>, x: int): seq<int>
    requires s != []
  {
    s[|s| - 1 := x]
  }

  /** One operation. Stuck is every situation in which the C code would leave its arrays. */
  function Step(code: seq<Syl>, st: State): Outcome {
    if st.pc >= |code| then Stuck
    else
      match code[st.pc]
      case NED(d) => Show(Act(Move(d)), st.(pc := st.pc + 1))
      case CTL(c) => Show(Act(Flag(c)), st.(pc := st.pc + 1))
      case COLON => Show(Act(Stop), st.(pc := st.pc + 1))
      case ED(e) =>
        if st.cnt == [] then Stuck
        else if Top(st.cnt) <= 0 then Quiet(st.(pc := st.pc + 1, cnt := Pop(st.cnt)))
        else Show(Data(e), st.(cnt := SetTop(st.cnt, Top(st.cnt) - 1)))
      case STACK(n) =>
        if |st.cnt| + 1 >= STKSZ then Stuck
        else Quiet(st.(pc := st.pc + 1, cnt := Push(st.cnt, n)))
      case RET1(loc) =>
        if |st.ret| + 1 >= STKSZ then Stuck
        else Quiet(st.(pc := st.pc + 1, ret := Push(st.ret, loc)))
      case GOTO =>
        if st.cnt == [] || st.ret == [] then Stuck
        else if Top(st.cnt) - 1 <= 0 then
          Quiet(State(st.pc + 1, Pop(st.cnt), Pop(st.ret)))
        else if 1 + Top(st.ret) < 0 then Stuck
        else Quiet(State(1 + Top(st.ret), SetTop(st.cnt, Top(st.cnt) - 1), Pop(st.ret)))
      case REVERT(_) => AtRevert
  }

  /** n operations: what they present, and the state after them; None if one is stuck or a REVERT. */
  function Run(code: seq<Syl>, st: State, n: nat): (r: Option<(seq<Tok>, State)>)
    decreases n
  {
    if n == 0 then Some(([], st))
    else
      match Step(code, st)
      case Quiet(st') => Run(code, st', n - 1)
      case Show(t, st') =>
        (match Run(code, st', n - 1)
         case Some(r) => Some(([t] + r.0, r.1))
         case None => None)
      case _ => None
  }

  /** From st the machine presents exactly toks in n operations and is then in st'. */
  predicate Presents(code: seq<Syl>, st: State, n: nat, toks: seq<Tok>, st': State) {
    Run(code, st, n) == Some((toks, st'))
  }

  lemma {:induction false} RunThen(code: seq<Syl>, st: State, n: nat, t1: seq<Tok>, st1: State,
                                   m: nat, t2: seq<Tok>, st2: State)
    requires Presents(code, st, n, t1, st1)
    requires Presents(code, st1, m, t2, st2)
    ensures Presents(code, st, n + m, t1 + t2, st2)
    decreases n
  {
    if n == 0 {
      assert t1 + t2 == t2;
    } else {
      match Step(code, st)
      case Quiet(st') =>
        RunThen(code, st', n - 1, t1, st1, m, t2, st2);
      case Show(t, st') =>
        var r := Run(code, st', n - 1).value;
        RunThen(code, st', n - 1, r.0, st1, m, t2, st2);
        AppendAssoc([t], r.0, t2);
      case _ =>
    }
  }

  lemma RunThenQuiet(code: seq<Syl>, st: State, n: nat, toks: seq<Tok>, st1: State, st2: State)
    requires Presents(code, st, n, toks, st1)
    requires Step(code, st1) == Quiet(st2)
    ensures Presents(code, st, n + 1, toks, st2)
  {
    assert Run(code, st2, 0) == Some(([], st2));
    RunThen(code, st, n, toks, st1, 1, [], st2);
    assert toks + [] == toks;
  }

  // ----- what the tree asks for -----

  function Repeat<T>(n: nat, s: seq<T>): seq<T> {
    if n == 0 then [] else s + Repeat(n - 1, s)
  }

  /** The descriptor sequence of a list with all repeats expanded. An edit descriptor
      repeated 0 times vanishes; a group is always presented at least once. */
  function Expand(items: seq<Item>): seq<Tok>
    decreases items
  {
    if items == [] then [] else ExpandItem(items[0]) + Expand(items[1..])
  }

  function ExpandItem(it: Item): seq<Tok>
    decreases it
  {
    match it
    case Once(p) => [Act(p)]
    case Edit(n, e) => Repeat(n, [Data(e)])
    case Bare(_) => []
    case Group(n, body) => Repeat(Max(n, 1), Expand(body))
  }

  // ----- how many operations the machine spends on it -----

  function Times(n: nat, k: nat): nat {
    if n == 0 then 0 else k + Times(n - 1, k)
  }

  function Steps(items: seq<Item>): nat
    decreases items
  {
    if items == [] then 0 else ItemSteps(items[0]) + Steps(items[1..])
  }

  function ItemSteps(it: Item): nat
    decreases it
  {
    match it
    case Once(p) => 1
    case Edit(n, e) => n + 2
    case Bare(_) => 1
    case Group(n, body) => 1 + Times(Max(n, 1), 2 + Steps(body))
  }

  /** part stands at position at of code. */
  predicate Stands(code: seq<Syl>, at: nat, part: seq<Syl>) {
    at + |part| <= |code| && code[at..at + |part|] == part
  }

  lemma StandsSplit(code: seq<Syl>, at: nat, a: seq<Syl>, b: seq<Syl>)
    requires Stands(code, at, a + b)
    ensures Stands(code, at, a) && Stands(code, at + |a|, b)
  {
    var all := code[at..at + |a + b|];
    assert all[..|a|] == a && all[|a|..] == b;
    assert code[at..at + |a|] == all[..|a|];
    assert code[at + |a|..at + |a| + |b|] == all[|a|..];
  }

  lemma StandsOne(code: seq<Syl>, at: nat, x: Syl)
    requires Stands(code, at, [x])
    ensures at < |code| && code[at] == x
  {
    assert code[at..at + 1][0] == x;
  }

  /** Room on both stacks for the groups of a list and one edit descriptor in the innermost. */
  predicate Fits(st: State, depth: nat) {
    |st.cnt| + depth + 1 < STKSZ && |st.ret| + depth < STKSZ
  }

  lemma {:induction false} RunEdit(code: seq<Syl>, st: State, k: nat, e: Ed)
    requires st.pc < |code| && code[st.pc] == ED(e)
    ensures Presents(code, st.(cnt := Push(st.cnt, k)), k + 1, Repeat(k, [Data(e)]), st.(pc := st.pc + 1))
    decreases k
  {
    var s1 := st.(cnt := Push(st.cnt, k));
    assert Pop(s1.cnt) == st.cnt;
    if k == 0 {
      assert Run(code, st.(pc := st.pc + 1), 0) == Some(([], st.(pc := st.pc + 1)));
    } else {
      assert SetTop(s1.cnt, k - 1) == Push(st.cnt, k - 1);
      RunEdit(code, st, k - 1, e);
    }
  }

  /** Where the pieces of a group's code stand. */
  lemma GroupLayout(code: seq<Syl>, at: nat, n: nat, body: seq<Item>)
    requires Stands(code, at, ItemCode(Group(n, body), at))
    ensures at + 2 + |ListCode(body, at + 2)| < |code|
    ensures code[at] == STACK(n) && code[at + 1] == RET1(at)
    ensures Stands(code, at + 2, ListCode(body, at + 2))
    ensures code[at + 2 + |ListCode(body, at + 2)|] == GOTO
  {
    var inner := ListCode(body, at + 2);
    var head := [STACK(n), RET1(at)];
    StandsSplit(code, at, head + inner, [GOTO]);
    StandsSplit(code, at, head, inner);
    assert head == [STACK(n)] + [RET1(at)];
    StandsSplit(code, at, [STACK(n)], [RET1(at)]);
    StandsOne(code, at, STACK(n));
    StandsOne(code, at + 1, RET1(at));
    StandsOne(code, at + 2 + |inner|, GOTO);
  }

  lemma RunQuietThen(code: seq<Syl>, st: State, st1: State, n: nat, toks: seq<Tok>, st2: State)
    requires Step(code, st) == Quiet(st1)
    requires Presents(code, st1, n, toks, st2)
    ensures Presents(code, st, 1 + n, toks, st2)
  {}

  /** GOTO on a count of k: leave the group, or start the next round. */
  lemma StepGoto(code: seq<Syl>, at: nat, cnt: seq<int>, ret: seq<int>, k: int, loc: nat)
    requires at < |code| && code[at] == GOTO
    ensures Step(code, State(at, Push(cnt, k), Push(ret, loc)))
         == Quiet(if k <= 1 then State(at + 1, cnt, ret) else State(1 + loc, Push(cnt, k - 1), ret))
  {
    assert Pop(Push(cnt, k)) == cnt && Pop(Push(ret, loc)) == ret;
    assert SetTop(Push(cnt, k), k - 1) == Push(cnt, k - 1);
  }

  /** One round of the body of the group at position at presents toks, whatever its count. */
  ghost predicate Round(code: seq<Syl>, at: nat, len: nat, cnt: seq<int>, ret: seq<int>, m: nat, toks: seq<Tok>) {
    forall c: int ::
      Presents(code, State(at + 2, Push(cnt, c), Push(ret, at)), m, toks,
               State(at + 2 + len, Push(cnt, c), Push(ret, at)))
  }

  /** The loop of a group: k rounds still to go, standing at its RET1. */
  lemma {:induction false} RunRounds(code: seq<Syl>, at: nat, len: nat, cnt: seq<int>, ret: seq<int>,
                                     m: nat, toks: seq<Tok>, k: nat)
    requires at + 2 + len < |code| && code[at + 1] == RET1(at) && code[at + 2 + len] == GOTO
    requires |ret| + 1 < STKSZ
    requires Round(code, at, len, cnt, ret, m, toks)
    ensures Presents(code, State(at + 1, Push(cnt, k), ret), Times(Max(k, 1), 2 + m), Repeat(Max(k, 1), toks),
                     State(at + 3 + len, cnt, ret))
    decreases k
  {
    var s1 := State(at + 1, Push(cnt, k), ret);
    var s2 := State(at + 2, Push(cnt, k), Push(ret, at));
    var s3 := State(at + 2 + len, Push(cnt, k), Push(ret, at));
    var out := State(at + 3 + len, cnt, ret);
    RunQuietThen(code, s1, s2, m, toks, s3);
    StepGoto(code, s3.pc, cnt, ret, k, at);
    if k <= 1 {
      RunThenQuiet(code, s1, 1 + m, toks, s3, out);
      RepeatOnce(toks, 2 + m);
    } else {
      var back := State(at + 1, Push(cnt, k - 1), ret);
      RunThenQuiet(code, s1, 1 + m, toks, s3, back);
      RunRounds(code, at, len, cnt, ret, m, toks, k - 1);
      RunThen(code, s1, 2 + m, toks, back, Times(k - 1, 2 + m), Repeat(k - 1, toks), out);
    }
  }

  lemma RepeatOnce<T>(s: seq<T>, k: nat)
    ensures Repeat(1, s) == s && Times(1, k) == k
  {
    assert Repeat(1, s) == s + Repeat(0, s);
    assert Times(1, k) == k + Times(0, k);
  }

  lemma {:induction false} RunList(code: seq<Syl>, st: State, items: seq<Item>)
    requires Stands(code, st.pc, ListCode(items, st.pc))
    requires Sound(items) && Fits(st, Depth(items))
    ensures Presents(code, st, Steps(items), Expand(items), st.(pc := st.pc + |ListCode(items, st.pc)|))
    decreases items, 0
  {
    if items != [] {
      var c := ItemCode(items[0], st.pc);
      var st1 := st.(pc := st.pc + |c|);
      var rest := ListCode(items[1..], st1.pc);
      StandsSplit(code, st.pc, c, rest);
      RunItem(code, st, items[0]);
      RunList(code, st1, items[1..]);
      RunThen(code, st, ItemSteps(items[0]), ExpandItem(items[0]), st1,
              Steps(items[1..]), Expand(items[1..]), st1.(pc := st1.pc + |rest|));
    }
  }

  lemma {:induction false} RunItem(code: seq<Syl>, st: State, it: Item)
    requires Stands(code, st.pc, ItemCode(it, st.pc))
    requires SoundItem(it) && Fits(st, ItemDepth(it))
    ensures Presents(code, st, ItemSteps(it), ExpandItem(it), st.(pc := st.pc + |ItemCode(it, st.pc)|))
    decreases it, 0
  {
    match it
    case Once(p) =>
      StandsOne(code, st.pc, PlainSyl(p));
      var st1 := st.(pc := st.pc + 1);
      assert Step(code, st) == Show(Act(p), st1);
      assert Run(code, st1, 0) == Some(([], st1));
      assert [Act(p)] + [] == [Act(p)];
    case Edit(n, e) =>
      StandsSplit(code, st.pc, [STACK(n)], [ED(e)]);
      assert [STACK(n), ED(e)] == [STACK(n)] + [ED(e)];
      StandsOne(code, st.pc, STACK(n));
      StandsOne(code, st.pc + 1, ED(e));
      RunEdit(code, st.(pc := st.pc + 1), n, e);
    case Group(n, body) =>
      RunGroup(code, st, n, body);
  }

  lemma {:induction false} RunGroup(code: seq<Syl>, st: State, n: nat, body: seq<Item>)
    requires Stands(code, st.pc, ItemCode(Group(n, body), st.pc))
    requires Sound(body) && Fits(st, 1 + Depth(body))
    ensures Presents(code, st, ItemSteps(Group(n, body)), ExpandItem(Group(n, body)),
                     st.(pc := st.pc + 3 + |ListCode(body, st.pc + 2)|))
    decreases body, 2
  {
    var len := |ListCode(body, st.pc + 2)|;
    GroupLayout(code, st.pc, n, body);
    RoundOfBody(code, st, body, len);
    EnterGroup(code, st, n, len, Steps(body), Expand(body));
  }

  lemma {:induction false} RoundOfBody(code: seq<Syl>, st: State, body: seq<Item>, len: nat)
    requires Stands(code, st.pc + 2, ListCode(body, st.pc + 2)) && len == |ListCode(body, st.pc + 2)|
    requires Sound(body) && Fits(st, 1 + Depth(body))
    ensures Round(code, st.pc, len, st.cnt, st.ret, Steps(body), Expand(body))
    decreases body, 1
  {
    forall c: int
      ensures Presents(code, State(st.pc + 2, Push(st.cnt, c), Push(st.ret, st.pc)), Steps(body), Expand(body),
                       State(st.pc + 2 + len, Push(st.cnt, c), Push(st.ret, st.pc)))
    {
      RunList(code, State(st.pc + 2, Push(st.cnt, c), Push(st.ret, st.pc)), body);
    }
  }

  lemma EnterGroup(code: seq<Syl>, st: State, n: nat, len: nat, m: nat, toks: seq<Tok>)
    requires st.pc + 2 + len < |code|
    requires code[st.pc] == STACK(n) && code[st.pc + 1] == RET1(st.pc) && code[st.pc + 2 + len] == GOTO
    requires |st.ret| + 1 < STKSZ && |st.cnt| + 1 < STKSZ
    requires Round(code, st.pc, len, st.cnt, st.ret, m, toks)
    ensures Presents(code, st, 1 + Times(Max(n, 1), 2 + m), Repeat(Max(n, 1), toks), st.(pc := st.pc + 3 + len))
  {
    RunRounds(code, st.pc, len, st.cnt, st.ret, m, toks, n);
    RunQuietThen(code, st, State(st.pc + 1, Push(st.cnt, n), st.ret), Times(Max(n, 1), 2 + m),
                 Repeat(Max(n, 1), toks), st.(pc := st.pc + 3 + len));
  }

  // ----- a whole format -----

  predicate HasGroup(items: seq<Item>) {
    exists i :: 0 <= i < |items| && items[i].Group?
  }

  /** What a reversion repeats: everything from the last top-level group on, or the whole list. */
  function Reused(items: seq<Item>): seq<Item> {
    if items == [] then []
    else if HasGroup(items[1..]) then Reused(items[1..])
    else items
  }

  /** In n operations the machine presents toks and is then at the closing REVERT of the code. */
  ghost predicate Ends(code: seq<Syl>, st: State, n: nat, toks: seq<Tok>, fin: State) {
    Presents(code, st, n, toks, fin) && fin.pc + 1 == |code| && code[fin.pc].REVERT?
  }

  ghost predicate Completes(code: seq<Syl>, st: State, toks: seq<Tok>) {
    exists n: nat, fin: State :: Ends(code, st, n, toks, fin)
  }

  /** One operation of a pass that ends: what it does to what is still to come. */
  lemma EndsStep(code: seq<Syl>, st: State, n: nat, toks: seq<Tok>, fin: State)
    requires Ends(code, st, n, toks, fin)
    ensures match Step(code, st)
            case Quiet(st') => n > 0 && Ends(code, st', n - 1, toks, fin)
            case Show(t, st') => n > 0 && toks != [] && toks[0] == t && Ends(code, st', n - 1, toks[1..], fin)
            case AtRevert => n == 0 && toks == [] && st == fin
            case Stuck => false
  {
    if n > 0 {
      match Step(code, st)
      case Show(t, st') => assert ([t] + Run(code, st', n - 1).value.0)[1..] == Run(code, st', n - 1).value.0;
      case _ =>
    }
  }

  lemma {:induction false} ReusedStands(code: seq<Syl>, items: seq<Item>, base: nat, loc: int)
    requires Stands(code, base, ListCode(items, base))
    requires HasGroup(items)
    ensures var at := RevertLoc(items, base, loc);
            && base <= at
            && Stands(code, at, ListCode(Reused(items), at))
            && at + |ListCode(Reused(items), at)| == base + |ListCode(items, base)|
    decreases |items|
  {
    var c := ItemCode(items[0], base);
    StandsSplit(code, base, c, ListCode(items[1..], base + |c|));
    if HasGroup(items[1..]) {
      ReusedStands(code, items[1..], base + |c|, if items[0].Group? then base else loc);
    } else {
      RevertLocNoGroup(items[1..], base + |c|, base);
      assert items[0].Group?;
    }
  }

  lemma {:induction false} RevertLocNoGroup(items: seq<Item>, base: nat, loc: int)
    requires !HasGroup(items)
    ensures RevertLoc(items, base, loc) == loc
    decreases |items|
  {
    if items != [] {
      assert !items[0].Group?;
      RevertLocNoGroup(items[1..], base + |ItemCode(items[0], base)|, loc);
    }
  }

  lemma {:induction false} ReusedProperties(items: seq<Item>)
    ensures exists head :: items == head + Reused(items)
    ensures Sound(items) ==> Sound(Reused(items))
    ensures Depth(Reused(items)) <= Depth(items)
    decreases |items|
  {
    if items != [] && HasGroup(items[1..]) {
      ReusedProperties(items[1..]);
      var head :| items[1..] == head + Reused(items[1..]);
      assert items == ([items[0]] + head) + Reused(items);
    } else {
      assert items == [] + Reused(items);
    }
  }

  lemma {:induction false} ExpandAppend(a: seq<Item>, b: seq<Item>)
    ensures Expand(a + b) == Expand(a) + Expand(b)
    decreases |a|
  {
    if a == [] {
      assert a + b == b;
    } else {
      ExpandAppend(a[1..], b);
      AppendCons(a, b);
      AppendAssoc(ExpandItem(a[0]), Expand(a[1..]), Expand(b));
    }
  }

  /** The layout of a format's code around its item list. */
  lemma FormatLayout(items: seq<Item>)
    ensures var code := Compiled(items);
            && code[0] == RET1(0)
            && Stands(code, 1, ListCode(items, 1))
            && |code| == 2 + |ListCode(items, 1)|
            && code[1 + |ListCode(items, 1)|] == REVERT(RevertLoc(items, 1, 0))
  {
    var body := ListCode(items, 1);
    assert Compiled(items)[1..1 + |body|] == body;
  }

  /** From the start the machine presents the expansion of the whole format. */
  lemma FirstPass(items: seq<Item>)
    requires Sound(items) && Depth(items) <= 8
    ensures Completes(Compiled(items), State(0, [], []), Expand(items))
  {
    var code := Compiled(items);
    FormatLayout(items);
    var s1 := State(1, [], [0]);
    assert Push([], 0) == [0];
    var fin := s1.(pc := 1 + |ListCode(items, 1)|);
    RunList(code, s1, items);
    RunQuietThen(code, State(0, [], []), s1, Steps(items), Expand(items), fin);
    assert Ends(code, State(0, [], []), 1 + Steps(items), Expand(items), fin);
  }

  /** From where a REVERT sends it, with both stacks emptied, it presents the expansion of
      the reused part. */
  lemma LaterPass(items: seq<Item>)
    requires Sound(items) && Depth(items) <= 8
    ensures 0 <= RevertLoc(items, 1, 0)
    ensures Completes(Compiled(items), State(RevertLoc(items, 1, 0), [], []), Expand(Reused(items)))
  {
    var code := Compiled(items);
    FormatLayout(items);
    if HasGroup(items) {
      ReusedStands(code, items, 1, 0);
      ReusedProperties(items);
      var st := State(RevertLoc(items, 1, 0), [], []);
      RunList(code, st, Reused(items));
      assert Ends(code, st, Steps(Reused(items)), Expand(Reused(items)), st.(pc := |code| - 1));
    } else {
      RevertLocNoGroup(items, 1, 0);
      if items != [] {
        forall i | 0 <= i < |items[1..]|
          ensures !items[1..][i].Group?
        {
          assert items[1..][i] == items[i + 1];
        }
      }
      FirstPass(items);
    }
  }

  /** Why field widths must not be 0: the stacked count that e_d leaves behind is the one the
      closing parenthesis counts down, and 2(I3,I0) presents I3 once. */
  lemma ZeroWidthLosesRepeats()
    ensures var items := [Group(2, [Edit(1, I(3)), Bare(1)])];
            && Expand(items) == [Data(I(3)), Data(I(3))]
            && Completes(Compiled(items), State(0, [], []), [Data(I(3))])
  {
    var items := [Group(2, [Edit(1, I(3)), Bare(1)])];
    ZeroWidthExpands();
    ZeroWidthCode();
    ZeroWidthRuns(Compiled(items));
  }

  lemma ZeroWidthExpands()
    ensures Expand([Group(2, [Edit(1, I(3)), Bare(1)])]) == [Data(I(3)), Data(I(3))]
  {
    var body := [Edit(1, I(3)), Bare(1)];
    var edit := [Data(I(3))];
    RepeatOnce(edit, 0);
    assert body[1..] == [Bare(1)];
    assert Expand(body) == edit + (ExpandItem(Bare(1)) + Expand([]));
    assert Repeat(2, edit) == edit + Repeat(1, edit);
    assert [Group(2, body)][1..] == [];
  }

  lemma ZeroWidthCode()
    ensures Compiled([Group(2, [Edit(1, I(3)), Bare(1)])])
         == [RET1(0), STACK(2), RET1(1), STACK(1), ED(I(3)), STACK(1), GOTO, REVERT(1)]
  {
    var body := [Edit(1, I(3)), Bare(1)];
    ListCodeCons(Edit(1, I(3)), [Bare(1)], 3);
    ListCodeCons(Bare(1), [], 5);
    ListCodeCons(Group(2, body), [], 1);
    assert body == [Edit(1, I(3))] + [Bare(1)] && [Bare(1)] + [] == [Bare(1)];
    assert [Group(2, body)] + [] == [Group(2, body)];
    assert ListCode(body, 3) == [STACK(1), ED(I(3)), STACK(1)];
    assert [Group(2, body)][1..] == [];
    assert RevertLoc([Group(2, body)], 1, 0) == RevertLoc([], 7, 1);
  }

  lemma ZeroWidthRuns(code: seq<Syl>)
    requires |code| == 8 && code[0] == RET1(0) && code[1] == STACK(2) && code[2] == RET1(1)
    requires code[3] == STACK(1) && code[4] == ED(I(3)) && code[5] == STACK(1) && code[6] == GOTO
             && code[7] == REVERT(1)
    ensures Completes(code, State(0, [], []), [Data(I(3))])
  {
    var edit := [Data(I(3))];
    var ret := Push([0], 1);
    var fin := State(7, Push([], 2), [0]);
    var s6 := State(6, Push(Push([], 2), 1), ret);
    var s4 := s6.(pc := 4);
    RepeatOnce(edit, 0);
    RunEdit(code, State(4, Push([], 2), ret), 1, I(3));
    RunThenQuiet(code, s4, 2, edit, State(5, Push([], 2), ret), s6);
    StepGoto(code, 6, Push([], 2), [0], 1, 1);
    RunThenQuiet(code, s4, 3, edit, s6, fin);
    RunQuietThen(code, State(3, Push([], 2), ret), s4, 4, edit, fin);
    RunQuietThen(code, State(2, Push([], 2), [0]), State(3, Push([], 2), ret), 5, edit, fin);
    RunQuietThen(code, State(1, [], [0]), State(2, Push([], 2), [0]), 6, edit, fin);
    assert Push([], 0) == [0];
    RunQuietThen(code, State(0, [], []), State(1, [], [0]), 7, edit, fin);
    assert Ends(code, State(0, [], []), 8, edit, fin);
  }
}
