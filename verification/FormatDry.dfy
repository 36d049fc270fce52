// Transfers that run dry: a reused part without data descriptors cannot take the items that are
// left. do_fio then returns, and what it has presented depends on how the items were split.
module FormatDry {
  import opened Options
  import opened Seqs
  import opened FormatCode
  import opened FormatMachine
  import opened FormatControl

  // ----- flags set twice -----

  /** What a list of descriptors sets, whatever the flags were. */
  datatype Settings = Settings(nonl: bool, cplus: Option<bool>, scale: Option<int>, cblank: Option<bool>)

  function Later<T>(a: Option<T>, b: Option<T>): Option<T> { if b.Some? then b else a }

  function SettingOf(t: Tok): Settings {
    match t
    case Act(Flag(Nonl)) => Settings(true, None, None, None)
    case Act(Flag(S)) => Settings(false, Some(false), None, None)
    case Act(Flag(SS)) => Settings(false, Some(false), None, None)
    case Act(Flag(SP)) => Settings(false, Some(true), None, None)
    case Act(Flag(P(n))) => Settings(false, None, Some(n), None)
    case Act(Flag(BN)) => Settings(false, None, None, Some(false))
    case Act(Flag(BZ)) => Settings(false, None, None, Some(true))
    case _ => Settings(false, None, None, None)
  }

  function SettingsOf(toks: seq<Tok>): Settings {
    if toks == [] then Settings(false, None, None, None)
    else Both(SettingOf(toks[0]), SettingsOf(toks[1..]))
  }

  function Both(a: Settings, b: Settings): Settings {
    Settings(a.nonl || b.nonl, Later(a.cplus, b.cplus), Later(a.scale, b.scale), Later(a.cblank, b.cblank))
  }

  function Set(f: Flags, s: Settings): Flags {
    Flags(f.nonl || s.nonl, Later(Some(f.cplus), s.cplus).value, Later(Some(f.scale), s.scale).value,
          Later(Some(f.cblank), s.cblank).value)
  }

  function TurnedBy(t: Tok, f: Flags): Flags { match t case Act(Flag(c)) => SetFlag(f, c) case _ => f }

  lemma OneSets(t: Tok, f: Flags)
    ensures TurnedBy(t, f) == Set(f, SettingOf(t))
  {}

  lemma BothSet(f: Flags, a: Settings, b: Settings)
    ensures Set(Set(f, a), b) == Set(f, Both(a, b))
  {}

  lemma {:induction false} TurnedSets(toks: seq<Tok>, f: Flags)
    ensures Turned(toks, f) == Set(f, SettingsOf(toks))
  {
    if toks != [] {
      OneSets(toks[0], f);
      TurnedSets(toks[1..], TurnedBy(toks[0], f));
      BothSet(f, SettingOf(toks[0]), SettingsOf(toks[1..]));
    }
  }

  /** Passing the same descriptors again changes no flag. */
  lemma TurnedTwice(toks: seq<Tok>, f: Flags)
    ensures Turned(toks, Turned(toks, f)) == Turned(toks, f)
  {
    TurnedSets(toks, f);
    TurnedSets(toks, Turned(toks, f));
  }

  lemma {:induction false} TurnedAppend(a: seq<Tok>, b: seq<Tok>, f: Flags)
    ensures Turned(a + b, f) == Turned(b, Turned(a, f))
    decreases |a|
  {
    if a == [] {
      assert a + b == b;
    } else {
      AppendCons(a, b);
      TurnedAppend(a[1..], b, TurnedBy(a[0], f));
    }
  }

  // ----- places a do_fio call starts from -----

  predicate EndsIn(toks: seq<Tok>, loop: seq<Tok>) { |loop| <= |toks| && toks[|toks| - |loop|..] == loop }

  /** In the first pass or after a dry one the reused part is still ahead as a whole; otherwise an item
      was moved in this pass. */
  predicate Ready(loop: seq<Tok>, p: Place) { p.workdone || EndsIn(p.todo, loop) }

  /** Where fmt_bg leaves off. */
  lemma StartReady(items: seq<Item>, f: Flags, trace: seq<Event>)
    ensures Ready(Expand(Reused(items)), Place(Expand(items), false, f, trace))
  {
    ReusedProperties(items);
    var head :| items == head + Reused(items);
    ExpandAppend(head, Reused(items));
  }

  lemma {:induction false} NextReady(loop: seq<Tok>, p: Place, x: int)
    ensures var (q, status) := Next(loop, p, Some(x));
            status != Finished && (if status.Dry? then q.todo == loop && !q.workdone else q.workdone)
    decreases p.workdone, |p.todo|
  {
    var (q, status) := Hop(loop, p, Some(x));
    if status.None? {
      NextReady(loop, q, x);
    }
  }

  /** Every call leaves off where the next may start. */
  lemma {:induction false} TransferReady(loop: seq<Tok>, p: Place, xs: seq<int>)
    requires Ready(loop, p)
    ensures Ready(loop, Transfer(loop, p, xs).0) && Transfer(loop, p, xs).1 != Finished
    decreases |xs|
  {
    if xs != [] {
      NextReady(loop, p, xs[0]);
      var (q, status) := Next(loop, p, Some(xs[0]));
      if status.Transferred? {
        TransferReady(loop, q, xs[1..]);
      }
    }
  }

  lemma ReadyCounts(loop: seq<Tok>, p: Place)
    requires Ready(loop, p)
    ensures p.workdone || DataCount(p.todo) >= DataCount(loop)
  {
    if !p.workdone {
      var k := |p.todo| - |loop|;
      assert p.todo == p.todo[..k] + loop;
      DataCountAppend(p.todo[..k], loop);
    }
  }

  lemma {:induction false} DataCountAppend(a: seq<Tok>, b: seq<Tok>)
    ensures DataCount(a + b) == DataCount(a) + DataCount(b)
    decreases |a|
  {
    if a == [] {
      assert a + b == b;
    } else {
      AppendCons(a, b);
      DataCountAppend(a[1..], b);
    }
  }

  // ----- a call that runs dry -----

  /** The calls of a whole pass whose data descriptors take the first items of xs. */
  function Pass(toks: seq<Tok>, f: Flags, xs: seq<int>): seq<Event>
    requires DataCount(toks) <= |xs|
  {
    if toks == [] then []
    else
      match toks[0]
      case Data(e) => [Edited(e, xs[0], f)] + Pass(toks[1..], f, xs[1..])
      case Act(Move(d)) => [Moved(d, f)] + Pass(toks[1..], f, xs)
      case Act(Flag(c)) => Pass(toks[1..], SetFlag(f, c), xs)
      case Act(Stop) => Pass(toks[1..], f, xs)
  }

  lemma {:induction false} PassMoves(toks: seq<Tok>, f: Flags, xs: seq<int>)
    requires DataCount(toks) == 0
    ensures Pass(toks, f, xs) == Moves(toks, f)
  {
    if toks != [] {
      PassMoves(toks[1..], TurnedBy(toks[0], f), xs);
    }
  }

  lemma {:induction false} PassFirst(pre: seq<Tok>, e: Ed, post: seq<Tok>, f: Flags, xs: seq<int>)
    requires DataCount(pre) == 0 && |xs| > DataCount(post)
    ensures var toks, g := pre + ([Data(e)] + post), Turned(pre, f);
            && DataCount(toks) == 1 + DataCount(post)
            && Pass(toks, f, xs) == Moves(pre, f) + ([Edited(e, xs[0], g)] + Pass(post, g, xs[1..]))
    decreases |pre|
  {
    var toks := pre + ([Data(e)] + post);
    DataCountAppend(pre, [Data(e)] + post);
    assert ([Data(e)] + post)[1..] == post;
    if pre == [] {
      assert toks == [Data(e)] + post;
    } else {
      AppendCons(pre, [Data(e)] + post);
      PassFirst(pre[1..], e, post, TurnedBy(pre[0], f), xs);
    }
  }

  /** Where a call leaves off that runs dry: the pass is presented, and, if an item was moved in it, once more
      the reused part. */
  function DryPlace(loop: seq<Tok>, p: Place, xs: seq<int>): Place
    requires DataCount(p.todo) <= |xs|
  {
    var f, trace := Turned(p.todo, p.flags), p.trace + Pass(p.todo, p.flags, xs);
    if p.workdone || DataCount(p.todo) > 0 then
      Place(loop, false, Turned(loop, f), trace + ([Reverted] + Moves(loop, f)))
    else Place(loop, false, f, trace)
  }

  lemma {:induction false} DryTransfer(loop: seq<Tok>, p: Place, xs: seq<int>)
    requires DataCount(loop) == 0 && |xs| > DataCount(p.todo)
    ensures Transfer(loop, p, xs) == (DryPlace(loop, p, xs), Dry)
    decreases |xs|
  {
    if DataCount(p.todo) == 0 {
      NextWithoutData(loop, p, xs[0]);
      PassMoves(p.todo, p.flags, xs);
      AppendAssoc(p.trace + Moves(p.todo, p.flags), [Reverted], Moves(loop, Turned(p.todo, p.flags)));
    } else {
      var pre, e, post := FirstData(p.todo);
      NextUsesFirst(loop, p, xs[0], pre, e, post);
      PassFirst(pre, e, post, p.flags, xs);
      TurnedAppend(pre, [Data(e)] + post, p.flags);
      assert ([Data(e)] + post)[1..] == post;
      var q := Next(loop, p, Some(xs[0])).0;
      DryTransfer(loop, q, xs[1..]);
      var g := Turned(pre, p.flags);
      Regrouped(p.trace, Moves(pre, p.flags), [Edited(e, xs[0], g)], Pass(post, g, xs[1..]));
    }
  }

  lemma Regrouped<T>(a: seq<T>, b: seq<T>, c: seq<T>, d: seq<T>)
    ensures ((a + b) + c) + d == a + (b + (c + d))
  {}

  /** The flags then are as the reused part leaves them. */
  lemma DrySettled(loop: seq<Tok>, p: Place, xs: seq<int>)
    requires Ready(loop, p) && DataCount(p.todo) <= |xs|
    ensures DryPlace(loop, p, xs).flags == Turned(p.todo, p.flags) || p.workdone
    ensures Turned(loop, DryPlace(loop, p, xs).flags) == DryPlace(loop, p, xs).flags
  {
    TurnedTwice(loop, Turned(p.todo, p.flags));
    if !p.workdone {
      var k := |p.todo| - |loop|;
      assert p.todo == p.todo[..k] + loop;
      TurnedAppend(p.todo[..k], loop, p.flags);
      TurnedTwice(loop, Turned(p.todo[..k], p.flags));
    }
  }

  /** The reused part and nothing else is still to come, with no item moved. */
  predicate Stale(loop: seq<Tok>, q: Place) {
    q.todo == loop && !q.workdone && Turned(loop, q.flags) == q.flags
  }

  function Again(loop: seq<Tok>, q: Place, n: nat): Place {
    q.(trace := q.trace + Repeat(n, Moves(loop, q.flags)))
  }

  /** A call after a dry one only presents the moves of the reused part again. */
  lemma StaleTransfer(loop: seq<Tok>, q: Place, ys: seq<int>)
    requires DataCount(loop) == 0 && Stale(loop, q)
    ensures Transfer(loop, q, ys).0 == Again(loop, q, if ys == [] then 0 else 1)
    ensures Stale(loop, Again(loop, q, if ys == [] then 0 else 1))
  {
    if ys != [] {
      DryTransfer(loop, q, ys);
      PassMoves(loop, q.flags, ys);
      assert Repeat(1, Moves(loop, q.flags)) == Moves(loop, q.flags) + Repeat(0, Moves(loop, q.flags));
    } else {
      assert q.trace + [] == q.trace;
    }
  }

  // ----- two calls or one -----

  predicate HasMove(toks: seq<Tok>) { exists k :: 0 <= k < |toks| && toks[k].Act? && toks[k].p.Move? }

  lemma {:induction false} MovesSome(toks: seq<Tok>, f: Flags)
    ensures Moves(toks, f) != [] <==> HasMove(toks)
  {
    if toks != [] {
      var rest := toks[1..];
      MovesSome(rest, TurnedBy(toks[0], f));
      if k :| 0 <= k < |rest| && rest[k].Act? && rest[k].p.Move? {
        assert toks[k + 1] == rest[k];
      }
      if k :| 0 <= k < |toks| && toks[k].Act? && toks[k].p.Move? && k != 0 {
        assert rest[k - 1] == toks[k];
      }
    }
  }

  /** Items in two calls lead to another place than in one, and then with other calls made, if and only if the
      first call runs dry, the second has items, and the reused part moves the cursor. */
  lemma SplitExactly(loop: seq<Tok>, p: Place, xs: seq<int>, ys: seq<int>)
    requires Ready(loop, p)
    ensures var one, two := Transfer(loop, p, xs + ys).0, Transfer(loop, Transfer(loop, p, xs).0, ys).0;
            && (one != two <==> one.trace != two.trace)
            && (one != two <==> DataCount(loop) == 0 && |xs| > DataCount(p.todo) && ys != [] && HasMove(loop))
  {
    SplitCalls(loop, p, xs, ys);
    ReadyCounts(loop, p);
    DryExactly(loop, p, xs);
    if DataCount(loop) == 0 && |xs| > DataCount(p.todo) {
      SplitDry(loop, p, xs, ys);
    } else {
      TransferReady(loop, p, xs);
    }
  }

  lemma SplitDry(loop: seq<Tok>, p: Place, xs: seq<int>, ys: seq<int>)
    requires Ready(loop, p) && DataCount(loop) == 0 && |xs| > DataCount(p.todo)
    ensures var q := Transfer(loop, p, xs).0;
            var two := Transfer(loop, q, ys).0;
            && Transfer(loop, p, xs) == (q, Dry)
            && (q != two <==> q.trace != two.trace) && (q.trace != two.trace <==> ys != [] && HasMove(loop))
  {
    var q := DryPlace(loop, p, xs);
    DryTransfer(loop, p, xs);
    DrySettled(loop, p, xs);
    StaleTransfer(loop, q, ys);
    MovesSome(loop, q.flags);
    var n, moves := if ys == [] then 0 else 1, Moves(loop, q.flags);
    assert Repeat(1, moves) == moves + Repeat(0, moves) == moves;
    assert |Again(loop, q, n).trace| == |q.trace| + |Repeat(n, moves)|;
    assert q.trace + [] == q.trace;
  }

  /** (1X) with two items: in one call the cursor moves once, in two calls twice. */
  lemma SplitDryDiffers(f: Flags)
    ensures var items := [Once(Move(X(1)))];
            var loop, p := Expand(Reused(items)), Place(Expand(items), false, f, []);
            && Transfer(loop, p, [7, 8]).0.trace == [Moved(X(1), f)]
            && Transfer(loop, Transfer(loop, p, [7]).0, [8]).0.trace == [Moved(X(1), f), Moved(X(1), f)]
  {
    var items := [Once(Move(X(1)))];
    assert items[1..] == [];
    assert Expand(items) == [Act(Move(X(1)))] + Expand([]) == [Act(Move(X(1)))];
    var loop := Expand(items);
    assert loop[1..] == [];
    var p := Place(loop, false, f, []);
    PassMoves(loop, f, [7, 8]);
    PassMoves(loop, f, [7]);
    DryTransfer(loop, p, [7, 8]);
    DryTransfer(loop, p, [7]);
    assert Turned(loop, f) == Turned([], f) == f;
    assert Moves(loop, f) == [Moved(X(1), f)] + Moves([], f) == [Moved(X(1), f)];
    StaleTransfer(loop, DryPlace(loop, p, [7]), [8]);
    assert Repeat(1, Moves(loop, f)) == Moves(loop, f) + Repeat(0, Moves(loop, f)) == [Moved(X(1), f)];
    assert [] + [Moved(X(1), f)] == [Moved(X(1), f)];
  }

  // ----- any number of calls -----

  function Calls(loop: seq<Tok>, p: Place, groups: seq<seq<int>>): Place
    decreases |groups|
  {
    if groups == [] then p else Calls(loop, Transfer(loop, p, groups[0]).0, groups[1..])
  }

  function Flat(groups: seq<seq<int>>): seq<int> {
    if groups == [] then [] else groups[0] + Flat(groups[1..])
  }

  /** Without a dry call the split makes no difference. */
  lemma {:induction false} CallsFed(loop: seq<Tok>, p: Place, groups: seq<seq<int>>)
    requires Transfer(loop, p, Flat(groups)).1 == Transferred
    ensures Calls(loop, p, groups) == Transfer(loop, p, Flat(groups)).0
    decreases |groups|
  {
    if groups != [] {
      SplitCalls(loop, p, groups[0], Flat(groups[1..]));
      CallsFed(loop, Transfer(loop, p, groups[0]).0, groups[1..]);
    }
  }

  /** The calls that offer items after the one that does not find n data descriptors for its own. */
  function Late(n: nat, groups: seq<seq<int>>): nat {
    if groups == [] then 0
    else if |groups[0]| <= n then Late(n - |groups[0]|, groups[1..])
    else Offering(groups[1..])
  }

  function Offering(groups: seq<seq<int>>): nat {
    if groups == [] then 0 else (if groups[0] == [] then 0 else 1) + Offering(groups[1..])
  }

  lemma {:induction false} RepeatMore<T>(m: nat, n: nat, s: seq<T>)
    ensures Repeat(m, s) + Repeat(n, s) == Repeat(m + n, s)
  {
    if m == 0 {
      assert [] + Repeat(n, s) == Repeat(n, s);
    } else {
      RepeatMore(m - 1, n, s);
      AppendAssoc(s, Repeat(m - 1, s), Repeat(n, s));
    }
  }

  lemma {:induction false} StaleCalls(loop: seq<Tok>, q: Place, groups: seq<seq<int>>)
    requires DataCount(loop) == 0 && Stale(loop, q)
    ensures Calls(loop, q, groups) == Again(loop, q, Offering(groups))
    decreases |groups|
  {
    if groups == [] {
      assert q.trace + [] == q.trace;
    } else {
      var n, moves := if groups[0] == [] then 0 else 1, Moves(loop, q.flags);
      StaleTransfer(loop, q, groups[0]);
      StaleCalls(loop, Again(loop, q, n), groups[1..]);
      RepeatMore(n, Offering(groups[1..]), moves);
      AppendAssoc(q.trace, Repeat(n, moves), Repeat(Offering(groups[1..]), moves));
    }
  }

  lemma {:induction false} TransferCounts(loop: seq<Tok>, p: Place, xs: seq<int>)
    requires |xs| <= DataCount(p.todo)
    ensures var (q, status) := Transfer(loop, p, xs);
            status == Transferred && DataCount(q.todo) == DataCount(p.todo) - |xs|
    decreases |xs|
  {
    if xs != [] {
      NextUsesOne(loop, p, xs[0]);
      TransferCounts(loop, Next(loop, p, Some(xs[0])).0, xs[1..]);
    }
  }

  /** What is presented when the items outnumber the data descriptors of a format that cannot reuse any:
      the dry pass, and the reused part's moves once for every later call that has items. */
  lemma {:induction false} CallsDry(loop: seq<Tok>, p: Place, groups: seq<seq<int>>)
    requires DataCount(loop) == 0 && Ready(loop, p) && |Flat(groups)| > DataCount(p.todo)
    ensures Calls(loop, p, groups) == Again(loop, DryPlace(loop, p, Flat(groups)), Late(DataCount(p.todo), groups))
    decreases |groups|
  {
    var first, rest := groups[0], groups[1..];
    var q := Transfer(loop, p, first).0;
    SplitCalls(loop, p, first, Flat(rest));
    DryTransfer(loop, p, Flat(groups));
    if |first| <= DataCount(p.todo) {
      TransferCounts(loop, p, first);
      TransferReady(loop, p, first);
      CallsDry(loop, q, rest);
      DryTransfer(loop, q, Flat(rest));
    } else {
      DryTransfer(loop, p, first);
      DrySettled(loop, p, first);
      StaleCalls(loop, q, rest);
    }
  }

  /** The calls for a whole transfer that runs dry, by the format's tree. */
  function DryEvents(items: seq<Item>, f: Flags, groups: seq<seq<int>>): seq<Event>
    requires |Flat(groups)| > DataCount(Expand(items))
  {
    var todo, loop := Expand(items), Expand(Reused(items));
    var g := Turned(todo, f);
    Pass(todo, f, Flat(groups)) + (if DataCount(todo) > 0 then [Reverted] + Moves(loop, g) else [])
    + Repeat(Late(DataCount(todo), groups), Moves(loop, g)) + Closing(loop, g)
  }

  lemma DryPresents(items: seq<Item>, f: Flags, trace: seq<Event>, groups: seq<seq<int>>)
    requires DataCount(Expand(Reused(items))) == 0 && |Flat(groups)| > DataCount(Expand(items))
    ensures var q := Calls(Expand(Reused(items)), Place(Expand(items), false, f, trace), groups);
            q.trace + Closing(q.todo, q.flags) == trace + DryEvents(items, f, groups)
  {
    var todo, loop, p := Expand(items), Expand(Reused(items)), Place(Expand(items), false, f, trace);
    StartReady(items, f, trace);
    CallsDry(loop, p, groups);
    DrySettled(loop, p, Flat(groups));
    var g := Turned(todo, f);
    var turn := if DataCount(todo) > 0 then [Reverted] + Moves(loop, g) else [];
    var late := Repeat(Late(DataCount(todo), groups), Moves(loop, g));
    assert Calls(loop, p, groups).trace == ((trace + Pass(todo, f, Flat(groups))) + turn) + late;
    Rejoined(trace, Pass(todo, f, Flat(groups)), turn, late, Closing(loop, g));
  }

  lemma Rejoined<T>(a: seq<T>, b: seq<T>, c: seq<T>, d: seq<T>, e: seq<T>)
    ensures (((a + b) + c) + d) + e == a + (b + c + d + e)
  {}

  // ----- whole statements -----

  /** Enough data descriptors for n items: in the reused part, or in one pass. */
  predicate Feeds(items: seq<Item>, n: nat) {
    DataCount(Expand(Reused(items))) > 0 || n <= DataCount(Expand(items))
  }

  /** The descriptors of a format from its start through enough reversions for n items. */
  function Stream(items: seq<Item>, n: nat): seq<Mark> {
    Unrolled(Expand(items), Expand(Reused(items)), if DataCount(Expand(Reused(items))) > 0 then n else 0)
  }

  /** Offered from the start of a format, the items make it present its stream. */
  lemma StreamFeeds(loop: seq<Tok>, p: Place, items: seq<Item>, xs: seq<int>)
    requires loop == Expand(Reused(items)) && p.todo == Expand(items)
    requires Feeds(items, |xs|)
    ensures var (q, status) := Transfer(loop, p, xs);
            && status == Transferred
            && q.trace + Closing(q.todo, q.flags) == p.trace + Present(Stream(items, |xs|), p.flags, xs)
  {
    ReusedProperties(items);
    var head :| items == head + Reused(items);
    ExpandAppend(head, Reused(items));
    DataCountAppend(Expand(head), loop);
    if DataCount(loop) > 0 {
      assert |xs| * DataCount(loop) >= |xs|;
      TransferPresents(loop, p, xs, |xs|);
    } else {
      TransferPresents(loop, p, xs, 0);
    }
  }

  /** The calls for a format and items offered in groups: the stream's, or those of a dry transfer. */
  function Prescribed(items: seq<Item>, f: Flags, groups: seq<seq<int>>): seq<Event> {
    var xs := Flat(groups);
    if Feeds(items, |xs|) then Present(Stream(items, |xs|), f, xs) else DryEvents(items, f, groups)
  }

  lemma Prescribes(items: seq<Item>, f: Flags, trace: seq<Event>, groups: seq<seq<int>>)
    ensures var q := Calls(Expand(Reused(items)), Place(Expand(items), false, f, trace), groups);
            q.trace + Closing(q.todo, q.flags) == trace + Prescribed(items, f, groups)
  {
    var loop, p := Expand(Reused(items)), Place(Expand(items), false, f, trace);
    if Feeds(items, |Flat(groups)|) {
      StreamFeeds(loop, p, items, Flat(groups));
      CallsFed(loop, p, groups);
    } else {
      DryPresents(items, f, trace, groups);
    }
  }
}
