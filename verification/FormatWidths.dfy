// Formats with field widths of 0, and formats nested too deep: exactly which formats the machine
// presents as their trees say. A width of 0 leaves a repeat count on the stack that no operation
// takes off.
module FormatWidths {
  import opened Options
  import opened Seqs
  import opened FormatCode
  import opened FormatMachine
  import opened FormatParse

  /** The counts one pass over a list leaves on f__cnt. A group whose closing meets such a count takes it
      for its own and leaves its own behind. */
  function Leaves(items: seq<Item>): seq<int>
    decreases items
  {
    if items == [] then [] else LeavesItem(items[0]) + Leaves(items[1..])
  }

  function LeavesItem(it: Item): seq<int>
    decreases it
  {
    match it
    case Bare(n) => [n]
    case Group(n, body) => if Leaves(body) == [] then [] else [n] + Pop(Leaves(body))
    case _ => []
  }

  /** What a pass presents that starts with c counts and r places on the stacks; None if it leaves the
      stacks' arrays. */
  function Pass(items: seq<Item>, c: nat, r: nat): Option<seq<Tok>>
    decreases items
  {
    if items == [] then Some([])
    else Both(PassItem(items[0], c, r), Pass(items[1..], c + |LeavesItem(items[0])|, r))
  }

  function Both(a: Option<seq<Tok>>, b: Option<seq<Tok>>): Option<seq<Tok>> {
    if a.Some? && b.Some? then Some(a.value + b.value) else None
  }

  function PassItem(it: Item, c: nat, r: nat): Option<seq<Tok>>
    decreases it
  {
    match it
    case Once(p) => Some([Act(p)])
    case Edit(n, e) => if c + 1 < STKSZ then Some(Repeat(n, [Data(e)])) else None
    case Bare(_) => if c + 1 < STKSZ then Some([]) else None
    case Group(n, body) =>
      if c + 1 >= STKSZ || r + 1 >= STKSZ then None
      else
        match Pass(body, c + 1, r + 1)
        case None => None
        case Some(toks) =>
          if Leaves(body) == [] then Some(Repeat(Max(n, 1), toks))
          else if Top(Leaves(body)) <= 1 then Some(toks)
          else None
  }

  /** The formats that are presented as their trees say: there is room on the stacks, and a group in which a
      count is left over is to be presented once, or presents nothing, and is left at once. */
  predicate Fine(items: seq<Item>, c: nat, r: nat)
    decreases items
  {
    items == [] || (FineItem(items[0], c, r) && Fine(items[1..], c + |LeavesItem(items[0])|, r))
  }

  predicate FineItem(it: Item, c: nat, r: nat)
    decreases it
  {
    match it
    case Once(_) => true
    case Edit(_, _) => c < 9
    case Bare(_) => c < 9
    case Group(n, body) =>
      && c < 9 && r < 9 && Fine(body, c + 1, r + 1)
      && (Leaves(body) == [] || (Top(Leaves(body)) <= 1 && (n <= 1 || Expand(body) == [])))
  }

  // ----- on trees -----

  lemma {:induction false} RepeatShorter<T>(m: nat, a: seq<T>, b: seq<T>)
    requires |a| <= |b|
    ensures |Repeat(m, a)| <= |Repeat(m, b)|
    ensures m > 0 && |a| < |b| ==> |Repeat(m, a)| < |Repeat(m, b)|
    ensures m > 0 && |a| == |b| ==> |Repeat(m, a)| == |Repeat(m, b)|
    ensures m > 1 && b != [] ==> |Repeat(m, b)| > |b|
    ensures b == [] ==> Repeat(m, b) == []
  {
    if m != 0 {
      RepeatShorter(m - 1, a, b);
    }
  }

  /** A pass presents no more than the tree asks for, and as much only if the format is fine. */
  ghost predicate AtMost(got: Option<seq<Tok>>, all: seq<Tok>, fine: bool) {
    && (got.None? ==> !fine)
    && (got.Some? ==> |got.value| <= |all| && (fine <==> |got.value| == |all|) && (fine ==> got.value == all))
  }

  lemma {:induction false} PassAtMost(items: seq<Item>, c: nat, r: nat)
    ensures AtMost(Pass(items, c, r), Expand(items), Fine(items, c, r))
    decreases items
  {
    if items != [] {
      ItemAtMost(items[0], c, r);
      PassAtMost(items[1..], c + |LeavesItem(items[0])|, r);
    }
  }

  lemma {:induction false} ItemAtMost(it: Item, c: nat, r: nat)
    ensures AtMost(PassItem(it, c, r), ExpandItem(it), FineItem(it, c, r))
    decreases it
  {
    match it
    case Group(n, body) =>
      PassAtMost(body, c + 1, r + 1);
      var got, all := Pass(body, c + 1, r + 1), Expand(body);
      if got.Some? {
        RepeatShorter(Max(n, 1), got.value, all);
        RepeatOnce(all, 0);
      }
    case _ =>
  }

  /** With widths other than 0 a format is fine if and only if its groups are at most eight deep. */
  lemma {:induction false} SoundFine(items: seq<Item>, c: nat)
    requires Sound(items) && c <= 8
    ensures Leaves(items) == [] && (Fine(items, c, c + 1) <==> c + Depth(items) <= 8)
    decreases items
  {
    if items != [] {
      SoundFineItem(items[0], c);
      SoundFine(items[1..], c);
    }
  }

  lemma {:induction false} SoundFineItem(it: Item, c: nat)
    requires SoundItem(it) && c <= 8
    ensures LeavesItem(it) == [] && (FineItem(it, c, c + 1) <==> c + ItemDepth(it) <= 8)
    decreases it
  {
    if it.Group? {
      if c < 8 {
        SoundFine(it.body, c + 1);
      } else {
        SoundFine(it.body, 0);
      }
    }
  }

  // ----- on the machine -----

  /** In n operations the machine is in a state in which the next would leave its arrays. */
  ghost predicate Dies(code: seq<Syl>, st: State, n: nat) {
    Run(code, st, n).Some? && Step(code, Run(code, st, n).value.1) == Stuck
  }

  lemma ThenDies(code: seq<Syl>, st: State, n: nat, toks: seq<Tok>, st1: State, m: nat)
    requires Presents(code, st, n, toks, st1) && Dies(code, st1, m)
    ensures Dies(code, st, n + m)
  {
    var r := Run(code, st1, m).value;
    RunThen(code, st, n, toks, st1, m, r.0, r.1);
  }

  lemma QuietDies(code: seq<Syl>, st: State, st1: State, m: nat)
    requires Step(code, st) == Quiet(st1) && Dies(code, st1, m)
    ensures Dies(code, st, 1 + m)
  {}

  /** What the machine does from st in n operations: it presents and is at to, or it dies. */
  ghost predicate Does(code: seq<Syl>, st: State, n: nat, got: Option<seq<Tok>>, to: State) {
    if got.Some? then Presents(code, st, n, got.value, to) else Dies(code, st, n)
  }

  lemma ThenDoes(code: seq<Syl>, st: State, n: nat, toks: seq<Tok>, st1: State, m: nat, got: Option<seq<Tok>>,
                 to: State)
    requires Presents(code, st, n, toks, st1) && Does(code, st1, m, got, to)
    ensures Does(code, st, n + m, if got.Some? then Some(toks + got.value) else None, to)
  {
    if got.Some? {
      RunThen(code, st, n, toks, st1, m, got.value, to);
    } else {
      ThenDies(code, st, n, toks, st1, m);
    }
  }

  lemma QuietDoes(code: seq<Syl>, st: State, st1: State, m: nat, got: Option<seq<Tok>>, to: State)
    requires Step(code, st) == Quiet(st1) && Does(code, st1, m, got, to)
    ensures Does(code, st, 1 + m, got, to)
  {
    if got.Some? {
      RunQuietThen(code, st, st1, m, got.value, to);
    } else {
      QuietDies(code, st, st1, m);
    }
  }

  lemma StuckDies(code: seq<Syl>, st: State)
    requires Step(code, st) == Stuck
    ensures Dies(code, st, 0)
  {}

  /** A list that leaves counts needs room for one. */
  lemma {:induction false} NeedsRoom(items: seq<Item>, c: nat, r: nat)
    requires Leaves(items) != [] && c + 1 >= STKSZ
    ensures Pass(items, c, r) == None
    decreases items
  {
    if items[0].Once? {
      NeedsRoom(items[1..], c, r);
    }
  }

  lemma {:induction false} PassRuns(code: seq<Syl>, st: State, items: seq<Item>) returns (n: nat)
    requires Stands(code, st.pc, ListCode(items, st.pc))
    ensures Does(code, st, n, Pass(items, |st.cnt|, |st.ret|),
                 State(st.pc + |ListCode(items, st.pc)|, st.cnt + Leaves(items), st.ret))
    decreases items, 1
  {
    n := 0;
    if items == [] {
      assert st.cnt + [] == st.cnt;
    } else {
      n := SomeRun(code, st, items);
      PassFirst(items, |st.cnt|, |st.ret|);
      AfterFirst(st, items);
    }
  }

  /** Where the first item of a list ends. */
  function Past(st: State, it: Item): State {
    State(st.pc + |ItemCode(it, st.pc)|, st.cnt + LeavesItem(it), st.ret)
  }

  lemma {:induction false} AfterFirst(st: State, items: seq<Item>)
    requires items != []
    ensures State(st.pc + |ListCode(items, st.pc)|, st.cnt + Leaves(items), st.ret)
         == State(Past(st, items[0]).pc + |ListCode(items[1..], Past(st, items[0]).pc)|,
                  Past(st, items[0]).cnt + Leaves(items[1..]), st.ret)
  {
    CodeFirst(items, st.pc);
    LeavesFirst(items, st.cnt);
  }

  lemma {:induction false} CodeFirst(items: seq<Item>, at: nat)
    requires items != []
    ensures var next := at + |ItemCode(items[0], at)|;
            at + |ListCode(items, at)| == next + |ListCode(items[1..], next)|
  {}

  lemma {:induction false} LeavesFirst(items: seq<Item>, cnt: seq<int>)
    requires items != []
    ensures cnt + Leaves(items) == (cnt + LeavesItem(items[0])) + Leaves(items[1..])
  {
    AppendAssoc(cnt, LeavesItem(items[0]), Leaves(items[1..]));
  }

  lemma {:induction false} PassFirst(items: seq<Item>, c: nat, r: nat)
    requires items != []
    ensures Pass(items, c, r) == Both(PassItem(items[0], c, r), Pass(items[1..], c + |LeavesItem(items[0])|, r))
  {}

  lemma {:induction false} SomeRun(code: seq<Syl>, st: State, items: seq<Item>) returns (n: nat)
    requires Stands(code, st.pc, ListCode(items, st.pc)) && items != []
    ensures Does(code, st, n,
                 Both(PassItem(items[0], |st.cnt|, |st.ret|), Pass(items[1..], |Past(st, items[0]).cnt|, |st.ret|)),
                 State(Past(st, items[0]).pc + |ListCode(items[1..], Past(st, items[0]).pc)|,
                       Past(st, items[0]).cnt + Leaves(items[1..]), st.ret))
    decreases items, 0
  {
    var st1 := Past(st, items[0]);
    StandsFirst(code, st.pc, items);
    n := ItemRuns(code, st, items[0]);
    var got := PassItem(items[0], |st.cnt|, |st.ret|);
    if got.Some? {
      var m := PassRuns(code, st1, items[1..]);
      ThenDoes(code, st, n, got.value, st1, m, Pass(items[1..], |st1.cnt|, |st.ret|),
               State(st1.pc + |ListCode(items[1..], st1.pc)|, st1.cnt + Leaves(items[1..]), st.ret));
      n := n + m;
    }
  }

  lemma StandsFirst(code: seq<Syl>, at: nat, items: seq<Item>)
    requires Stands(code, at, ListCode(items, at)) && items != []
    ensures var next := at + |ItemCode(items[0], at)|;
            Stands(code, at, ItemCode(items[0], at)) && Stands(code, next, ListCode(items[1..], next))
  {
    var c := ItemCode(items[0], at);
    StandsSplit(code, at, c, ListCode(items[1..], at + |c|));
  }

  lemma {:induction false} ItemRuns(code: seq<Syl>, st: State, it: Item) returns (n: nat)
    requires Stands(code, st.pc, ItemCode(it, st.pc))
    ensures Does(code, st, n, PassItem(it, |st.cnt|, |st.ret|),
                 State(st.pc + |ItemCode(it, st.pc)|, st.cnt + LeavesItem(it), st.ret))
    decreases it, 0
  {
    match it
    case Once(p) =>
      StandsOne(code, st.pc, PlainSyl(p));
      n := 1;
      OnceRuns(code, st, p);
    case Edit(k, e) =>
      n := EditRuns(code, st, k, e);
    case Bare(k) =>
      StandsOne(code, st.pc, STACK(k));
      n := BareRuns(code, st, k);
    case Group(k, body) =>
      n := GroupRuns(code, st, k, body);
  }

  lemma OnceRuns(code: seq<Syl>, st: State, p: Plain)
    requires st.pc < |code| && code[st.pc] == PlainSyl(p)
    ensures Presents(code, st, 1, [Act(p)], State(st.pc + 1, st.cnt + [], st.ret))
  {
    var st1 := st.(pc := st.pc + 1);
    assert st.cnt + [] == st.cnt;
    assert Run(code, st1, 0) == Some(([], st1));
    assert [Act(p)] + [] == [Act(p)];
  }

  lemma EditRuns(code: seq<Syl>, st: State, k: nat, e: Ed) returns (n: nat)
    requires Stands(code, st.pc, [STACK(k), ED(e)])
    ensures Does(code, st, n, PassItem(Edit(k, e), |st.cnt|, |st.ret|), State(st.pc + 2, st.cnt + [], st.ret))
  {
    assert [STACK(k), ED(e)] == [STACK(k)] + [ED(e)];
    StandsSplit(code, st.pc, [STACK(k)], [ED(e)]);
    StandsOne(code, st.pc, STACK(k));
    StandsOne(code, st.pc + 1, ED(e));
    assert st.cnt + [] == st.cnt;
    n := 0;
    if |st.cnt| + 1 < STKSZ {
      var st1 := State(st.pc + 1, Push(st.cnt, k), st.ret);
      RunEdit(code, st.(pc := st.pc + 1), k, e);
      RunQuietThen(code, st, st1, k + 1, Repeat(k, [Data(e)]), st.(pc := st.pc + 2));
      n := k + 2;
    } else {
      StuckDies(code, st);
    }
  }

  lemma BareRuns(code: seq<Syl>, st: State, k: nat) returns (n: nat)
    requires st.pc < |code| && code[st.pc] == STACK(k)
    ensures Does(code, st, n, PassItem(Bare(k), |st.cnt|, |st.ret|), State(st.pc + 1, st.cnt + [k], st.ret))
  {
    n := 0;
    if |st.cnt| + 1 < STKSZ {
      var st1 := State(st.pc + 1, Push(st.cnt, k), st.ret);
      assert Run(code, st1, 0) == Some(([], st1));
      RunQuietThen(code, st, st1, 0, [], st1);
      n := 1;
    } else {
      StuckDies(code, st);
    }
  }

  /** STACK and RET1 of a group, if there is room for them. */
  lemma {:induction false} GroupRuns(code: seq<Syl>, st: State, k: nat, body: seq<Item>) returns (n: nat)
    requires Stands(code, st.pc, ItemCode(Group(k, body), st.pc))
    ensures Does(code, st, n, PassItem(Group(k, body), |st.cnt|, |st.ret|),
                 State(st.pc + 3 + |ListCode(body, st.pc + 2)|, st.cnt + LeavesItem(Group(k, body)), st.ret))
    decreases body, 6
  {
    GroupLayout(code, st.pc, k, body);
    var len := |ListCode(body, st.pc + 2)|;
    var to := State(st.pc + 3 + len, st.cnt + LeavesItem(Group(k, body)), st.ret);
    var s1 := State(st.pc + 1, Push(st.cnt, k), st.ret);
    n := 0;
    if |st.cnt| + 1 >= STKSZ {
      StuckDies(code, st);
    } else if |st.ret| + 1 >= STKSZ {
      StuckDies(code, s1);
      QuietDies(code, st, s1, 0);
      n := 1;
    } else {
      n := AllRounds(code, st.pc, st.cnt, st.ret, k, body);
      QuietDoes(code, st, s1, n, PassItem(Group(k, body), |st.cnt|, |st.ret|), to);
      n := 1 + n;
    }
  }

  /** The group from its RET1 on. */
  lemma {:induction false} AllRounds(code: seq<Syl>, at: nat, cnt: seq<int>, ret: seq<int>, k: nat, body: seq<Item>)
    returns (n: nat)
    requires Stands(code, at, ItemCode(Group(k, body), at)) && |cnt| + 1 < STKSZ && |ret| + 1 < STKSZ
    ensures Does(code, State(at + 1, Push(cnt, k), ret), n, PassItem(Group(k, body), |cnt|, |ret|),
                 State(at + 3 + |ListCode(body, at + 2)|, cnt + LeavesItem(Group(k, body)), ret))
    decreases body, 5
  {
    if Leaves(body) == [] {
      n := Rounds(code, at, cnt, ret, k, body, k, Pass(body, |cnt| + 1, |ret| + 1));
      assert cnt + [] == cnt;
    } else {
      n := OneRound(code, at, cnt, ret, k, body);
    }
  }

  /** The body of the group at at, once, from its RET1. */
  lemma {:induction false} BodyRuns(code: seq<Syl>, at: nat, cnt: seq<int>, ret: seq<int>, n0: nat, body: seq<Item>)
    returns (n: nat)
    requires Stands(code, at, ItemCode(Group(n0, body), at)) && |ret| + 1 < STKSZ
    ensures Does(code, State(at + 1, cnt, ret), n, Pass(body, |cnt|, |ret| + 1),
                 State(at + 2 + |ListCode(body, at + 2)|, cnt + Leaves(body), Push(ret, at)))
    decreases body, 2, 0
  {
    GroupLayout(code, at, n0, body);
    var s2 := State(at + 2, cnt, Push(ret, at));
    n := PassRuns(code, s2, body);
    QuietDoes(code, State(at + 1, cnt, ret), s2, n, Pass(body, |cnt|, |ret| + 1),
              State(at + 2 + |ListCode(body, at + 2)|, cnt + Leaves(body), Push(ret, at)));
    n := 1 + n;
  }

  lemma {:induction false} CleanBody(code: seq<Syl>, at: nat, cnt: seq<int>, ret: seq<int>, n0: nat, body: seq<Item>)
    returns (n: nat)
    requires Stands(code, at, ItemCode(Group(n0, body), at)) && |ret| + 1 < STKSZ && Leaves(body) == []
    ensures Does(code, State(at + 1, cnt, ret), n, Pass(body, |cnt|, |ret| + 1),
                 State(at + 2 + |ListCode(body, at + 2)|, cnt, Push(ret, at)))
    decreases body, 2, 1
  {
    n := BodyRuns(code, at, cnt, ret, n0, body);
    assert cnt + [] == cnt;
  }

  /** The rounds of a group that leaves no counts: k of them are to go, each presenting got. */
  lemma {:induction false} Rounds(code: seq<Syl>, at: nat, cnt: seq<int>, ret: seq<int>, n0: nat, body: seq<Item>,
                                  k: nat, got: Option<seq<Tok>>)
    returns (n: nat)
    requires Stands(code, at, ItemCode(Group(n0, body), at)) && |ret| + 1 < STKSZ && Leaves(body) == []
    requires got == Pass(body, |cnt| + 1, |ret| + 1)
    ensures Does(code, State(at + 1, Push(cnt, k), ret), n,
                 if got.Some? then Some(Repeat(Max(k, 1), got.value)) else None,
                 State(at + 3 + |ListCode(body, at + 2)|, cnt, ret))
    decreases body, 3, k, 1
  {
    n := CleanBody(code, at, Push(cnt, k), ret, n0, body);
    if got.Some? {
      n := RoundOver(code, at, cnt, ret, n0, body, k, got.value, n);
    }
  }

  /** One of them is over. */
  lemma {:induction false} RoundOver(code: seq<Syl>, at: nat, cnt: seq<int>, ret: seq<int>, n0: nat, body: seq<Item>,
                                     k: nat, toks: seq<Tok>, m: nat)
    returns (n: nat)
    requires Stands(code, at, ItemCode(Group(n0, body), at)) && |ret| + 1 < STKSZ && Leaves(body) == []
    requires Some(toks) == Pass(body, |cnt| + 1, |ret| + 1)
    requires Presents(code, State(at + 1, Push(cnt, k), ret), m, toks,
                      State(at + 2 + |ListCode(body, at + 2)|, Push(cnt, k), Push(ret, at)))
    ensures Presents(code, State(at + 1, Push(cnt, k), ret), n, Repeat(Max(k, 1), toks),
                     State(at + 3 + |ListCode(body, at + 2)|, cnt, ret))
    decreases body, 3, k, 0, 1
  {
    if k <= 1 {
      GroupClose(code, at, n0, body);
      LastRound(code, at, |ListCode(body, at + 2)|, cnt, ret, k, toks, m);
      n := m + 1;
    } else {
      n := MoreRounds(code, at, cnt, ret, n0, body, k, toks, m);
    }
  }

  /** Others are to go. */
  lemma {:induction false} MoreRounds(code: seq<Syl>, at: nat, cnt: seq<int>, ret: seq<int>, n0: nat, body: seq<Item>,
                                      k: nat, toks: seq<Tok>, m: nat)
    returns (n: nat)
    requires Stands(code, at, ItemCode(Group(n0, body), at)) && |ret| + 1 < STKSZ && Leaves(body) == []
    requires Some(toks) == Pass(body, |cnt| + 1, |ret| + 1) && k > 1
    requires Presents(code, State(at + 1, Push(cnt, k), ret), m, toks,
                      State(at + 2 + |ListCode(body, at + 2)|, Push(cnt, k), Push(ret, at)))
    ensures Presents(code, State(at + 1, Push(cnt, k), ret), n, Repeat(k, toks),
                     State(at + 3 + |ListCode(body, at + 2)|, cnt, ret))
    decreases body, 3, k, 0, 0
  {
    GroupClose(code, at, n0, body);
    var l := Rounds(code, at, cnt, ret, n0, body, k - 1, Some(toks));
    NextRound(code, at, |ListCode(body, at + 2)|, cnt, ret, k, toks, m, l);
    n := m + 1 + l;
  }

  lemma {:induction false} GroupClose(code: seq<Syl>, at: nat, n0: nat, body: seq<Item>)
    requires Stands(code, at, ItemCode(Group(n0, body), at))
    ensures at + 2 + |ListCode(body, at + 2)| < |code| && code[at + 2 + |ListCode(body, at + 2)|] == GOTO
  {
    GroupLayout(code, at, n0, body);
  }

  lemma {:induction false} LastRound(
    code: seq<Syl>, at: nat, len: nat, cnt: seq<int>, ret: seq<int>, k: nat, toks: seq<Tok>, m: nat)
    requires at + 2 + len < |code| && code[at + 2 + len] == GOTO && k <= 1
    requires Presents(code, State(at + 1, Push(cnt, k), ret), m, toks, State(at + 2 + len, Push(cnt, k), Push(ret, at)))
    ensures Presents(code, State(at + 1, Push(cnt, k), ret), m + 1, Repeat(Max(k, 1), toks),
                     State(at + 3 + len, cnt, ret))
  {
    StepGoto(code, at + 2 + len, cnt, ret, k, at);
    RunThenQuiet(code, State(at + 1, Push(cnt, k), ret), m, toks, State(at + 2 + len, Push(cnt, k), Push(ret, at)),
                 State(at + 3 + len, cnt, ret));
    RepeatOnce(toks, 0);
  }

  lemma {:induction false} NextRound(
    code: seq<Syl>, at: nat, len: nat, cnt: seq<int>, ret: seq<int>, k: nat, toks: seq<Tok>, m: nat, l: nat)
    requires at + 2 + len < |code| && code[at + 2 + len] == GOTO && k > 1
    requires Presents(code, State(at + 1, Push(cnt, k), ret), m, toks, State(at + 2 + len, Push(cnt, k), Push(ret, at)))
    requires Presents(code, State(at + 1, Push(cnt, k - 1), ret), l, Repeat(k - 1, toks), State(at + 3 + len, cnt, ret))
    ensures Presents(code, State(at + 1, Push(cnt, k), ret), m + 1 + l, Repeat(k, toks), State(at + 3 + len, cnt, ret))
  {
    var s1, back := State(at + 1, Push(cnt, k), ret), State(at + 1, Push(cnt, k - 1), ret);
    StepGoto(code, at + 2 + len, cnt, ret, k, at);
    RunThenQuiet(code, s1, m, toks, State(at + 2 + len, Push(cnt, k), Push(ret, at)), back);
    RunThen(code, s1, m + 1, toks, back, l, Repeat(k - 1, toks), State(at + 3 + len, cnt, ret));
  }

  /** The round of a group that leaves counts: the last of them decides whether it is left. */
  lemma {:induction false} OneRound(code: seq<Syl>, at: nat, cnt: seq<int>, ret: seq<int>, k: nat, body: seq<Item>)
    returns (n: nat)
    requires Stands(code, at, ItemCode(Group(k, body), at)) && |cnt| + 1 < STKSZ && |ret| + 1 < STKSZ
    requires Leaves(body) != []
    ensures Does(code, State(at + 1, Push(cnt, k), ret), n, PassItem(Group(k, body), |cnt|, |ret|),
                 State(at + 3 + |ListCode(body, at + 2)|, cnt + LeavesItem(Group(k, body)), ret))
    decreases body, 4
  {
    GroupLayout(code, at, k, body);
    var got := Pass(body, |cnt| + 1, |ret| + 1);
    OneRoundPasses(cnt, ret, k, body);
    n := BodyRuns(code, at, Push(cnt, k), ret, k, body);
    if got.Some? {
      var s1, left := State(at + 1, Push(cnt, k), ret), Leaves(body);
      var s3 := State(at + 2 + |ListCode(body, at + 2)|, Push(cnt, k) + left, Push(ret, at));
      var s4 := CountsDown(code, s3.pc, Push(cnt, k), left, ret, at);
      RunThenQuiet(code, s1, n, got.value, s3, s4);
      n := n + 1;
      AppendAssoc(cnt, [k], Pop(left));
      if Top(left) > 1 {
        var m := RunsAway(code, at, s4.cnt, ret, k, body);
        ThenDies(code, s1, n, got.value, s4, m);
        n := n + m;
      }
    }
  }

  lemma {:induction false} OneRoundPasses(cnt: seq<int>, ret: seq<int>, k: nat, body: seq<Item>)
    requires |cnt| + 1 < STKSZ && |ret| + 1 < STKSZ && Leaves(body) != []
    ensures var got := Pass(body, |cnt| + 1, |ret| + 1);
            && (got.None? ==> PassItem(Group(k, body), |cnt|, |ret|) == None)
            && PassItem(Group(k, body), |cnt|, |ret|) == (if Top(Leaves(body)) <= 1 then got else None)
    ensures LeavesItem(Group(k, body)) == [k] + Pop(Leaves(body))
  {}

  /** GOTO on counts that have been left over. */
  lemma CountsDown(code: seq<Syl>, pc: nat, cnt: seq<int>, left: seq<int>, ret: seq<int>, at: nat) returns (st: State)
    requires pc < |code| && code[pc] == GOTO && left != []
    ensures st == if Top(left) <= 1 then State(pc + 1, cnt + Pop(left), ret)
                  else State(1 + at, Push(cnt + Pop(left), Top(left) - 1), ret)
    ensures Step(code, State(pc, cnt + left, Push(ret, at))) == Quiet(st)
  {
    assert cnt + left == Push(cnt + Pop(left), Top(left));
    StepGoto(code, pc, cnt + Pop(left), ret, Top(left), at);
    st := if Top(left) <= 1 then State(pc + 1, cnt + Pop(left), ret)
          else State(1 + at, Push(cnt + Pop(left), Top(left) - 1), ret);
  }

  /** If that count is more than 1, the group goes around until the stack is full. */
  lemma {:induction false} RunsAway(code: seq<Syl>, at: nat, cnt: seq<int>, ret: seq<int>, k: nat, body: seq<Item>)
    returns (n: nat)
    requires Stands(code, at, ItemCode(Group(k, body), at)) && |ret| + 1 < STKSZ
    requires Leaves(body) != [] && Top(Leaves(body)) > 1
    ensures Dies(code, State(at + 1, cnt, ret), n)
    decreases body, 3, if |cnt| < STKSZ then STKSZ - |cnt| else 0
  {
    GroupLayout(code, at, k, body);
    n := BodyRuns(code, at, cnt, ret, k, body);
    var got := Pass(body, |cnt|, |ret| + 1);
    if got.Some? {
      assert |cnt| + 1 < STKSZ by {
        if |cnt| + 1 >= STKSZ { NeedsRoom(body, |cnt|, |ret| + 1); }
      }
      var s3 := State(at + 2 + |ListCode(body, at + 2)|, cnt + Leaves(body), Push(ret, at));
      var s4 := CountsDown(code, s3.pc, cnt, Leaves(body), ret, at);
      RunThenQuiet(code, State(at + 1, cnt, ret), n, got.value, s3, s4);
      var m := RunsAway(code, at, s4.cnt, ret, k, body);
      ThenDies(code, State(at + 1, cnt, ret), n + 1, got.value, s4, m);
      n := n + 1 + m;
    }
  }

  // ----- whole formats -----

  /** A machine that dies does not end. */
  lemma {:induction false} DeadNotEnded(code: seq<Syl>, st: State, n: nat, m: nat, toks: seq<Tok>, fin: State)
    requires Dies(code, st, n)
    ensures !Ends(code, st, m, toks, fin)
    decreases n
  {
    if Ends(code, st, m, toks, fin) {
      EndsStep(code, st, m, toks, fin);
      if n > 0 && m > 0 {
        match Step(code, st)
        case Quiet(st') => DeadNotEnded(code, st', n - 1, m - 1, toks, fin);
        case Show(t, st') => DeadNotEnded(code, st', n - 1, m - 1, toks[1..], fin);
        case _ =>
      }
    }
  }

  /** What it presents until it ends is determined. */
  lemma {:induction false} EndsOnce(code: seq<Syl>, st: State, n: nat, a: seq<Tok>, f: State, m: nat,
                                    b: seq<Tok>, g: State)
    requires Ends(code, st, n, a, f) && Ends(code, st, m, b, g)
    ensures a == b
    decreases n
  {
    EndsStep(code, st, n, a, f);
    EndsStep(code, st, m, b, g);
    match Step(code, st)
    case Quiet(st') => EndsOnce(code, st', n - 1, a, f, m - 1, b, g);
    case Show(t, st') =>
      EndsOnce(code, st', n - 1, a[1..], f, m - 1, b[1..], g);
      assert a == [t] + a[1..] && b == [t] + b[1..];
    case _ =>
  }

  /** The compiled format presents the expansion of its tree if and only if the tree is fine. */
  lemma PresentsExactly(items: seq<Item>)
    ensures Completes(Compiled(items), State(0, [], []), Expand(items)) <==> Fine(items, 0, 1)
  {
    var code, st := Compiled(items), State(0, [], []);
    FormatLayout(items);
    assert Push([], 0) == [0];
    var s1, len := State(1, [], [0]), |ListCode(items, 1)|;
    var n := PassRuns(code, s1, items);
    var got, to := Pass(items, 0, 1), State(1 + len, [] + Leaves(items), [0]);
    QuietDoes(code, st, s1, n, got, to);
    PassAtMost(items, 0, 1);
    if got.Some? {
      assert Ends(code, st, 1 + n, got.value, to);
      if m, fin :| Ends(code, st, m, Expand(items), fin) {
        EndsOnce(code, st, 1 + n, got.value, to, m, Expand(items), fin);
      }
    } else if m: nat, fin: State :| Ends(code, st, m, Expand(items), fin) {
      DeadNotEnded(code, st, 1 + n, m, Expand(items), fin);
    }
  }

  /** A text whose width of 0 loses a repeat: 2(I3,I0) presents I3 once. */
  lemma ZeroWidthText()
    ensures var items := [Group(2, [Edit(1, I(3)), Bare(1)])];
            && ReadFormat("(2(I3,I0))") == Some(items)
            && Expand(items) == [Data(I(3)), Data(I(3))]
            && Completes(Compiled(items), State(0, [], []), [Data(I(3))])
  {
    ZeroWidthLosesRepeats();
    ZeroWidthRead("(2(I3,I0))");
  }

  lemma ZeroWidthRead(s: string)
    requires s == "(2(I3,I0))"
    ensures ReadFormat(s) == Some([Group(2, [Edit(1, I(3)), Bare(1)])])
  {
    ZeroWidthGroup(s);
    ReadListOn(s, 1);
  }

  lemma ZeroWidthGroup(s: string)
    requires s == "(2(I3,I0))"
    ensures ReadItem(s, 1) == Some((Group(2, [Edit(1, I(3)), Bare(1)]), 9))
  {
    ZeroWidthBody(s);
    assert Number(s, 1, 0, false) == Number(s, 2, 2, true) == (2, true, 2);
    assert GtNum(s, 1, 0) == Some((2, 2)) && GtNum(s, 1, 1) == Some((2, 2));
    assert LexPlain(s, 1) == NotOne && LexEdit(s, 1) == NotOne;
    assert Skip(s, 9) == 9;
  }

  /** The list inside its inner parentheses. */
  lemma ZeroWidthBody(s: string)
    requires s == "(2(I3,I0))"
    ensures ReadList(s, 3) == Some(([Edit(1, I(3)), Bare(1)], 9))
  {
    assert Number(s, 4, 0, false) == Number(s, 5, 3, true) == (3, true, 5);
    assert Number(s, 7, 0, false) == Number(s, 8, 0, true) == (0, true, 8);
    assert LexInteger(s, 4, 1, 'I') == Got(Edit(1, I(3)), 5);
    assert LexInteger(s, 7, 1, 'I') == Got(Bare(1), 8);
    assert LexEdit(s, 3) == Got(Edit(1, I(3)), 5) && LexEdit(s, 6) == Got(Bare(1), 8);
    assert ReadItem(s, 3) == Some((Edit(1, I(3)), 5)) && ReadItem(s, 6) == Some((Bare(1), 8));
    ReadListOn(s, 6);
    ReadListOn(s, 3);
    assert [Edit(1, I(3))] + [Bare(1)] == [Edit(1, I(3)), Bare(1)];
  }
}
