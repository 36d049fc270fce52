// Format control, section 13.3 of ANSI X3.9-1978: how a list of items is paired
// with the descriptors of a format, with reversion. Two definitions and the
// proof that they agree: Next consumes one item at a time from a remembered
// place, as successive do_fio calls do; Present reads the whole unrolled stream.
module FormatControl {
  import opened Options
  import opened Seqs
  import opened FormatCode
  import opened FormatMachine

  /** f__nonl, f__cplus, f__scale, f__cblank. */
  datatype Flags = Flags(nonl: bool, cplus: bool, scale: int, cblank: bool)

  function SetFlag(f: Flags, c: Ctl): Flags {
    match c
    case Nonl => f.(nonl := true)
    case S => f.(cplus := false)
    case SS => f.(cplus := false)
    case SP => f.(cplus := true)
    case P(n) => f.(scale := n)
    case BN => f.(cblank := false)
    case BZ => f.(cblank := true)
  }

  /** The calls format control makes on the transfer side: f__doned, f__doed with
      the address of an item, f__dorevert, f__doend. */
  datatype Event = Moved(d: Ned, f: Flags) | Edited(e: Ed, item: int, f: Flags) | Reverted | Ended(f: Flags)

  /** Where format control stands: the descriptors left before the closing parenthesis,
      f__workdone, the flags, and the calls made so far. */
  datatype Place = Place(todo: seq<Tok>, workdone: bool, flags: Flags, trace: seq<Event>)

  /** How a step ends: the item was edited; the transfer is over; or a whole pass
      moved no item although one was waiting (do_fio then returns without it). */
  datatype Status = Transferred | Finished | Dry

  /** One descriptor, or one reversion. None: the item is still waiting. */
  function Hop(loop: seq<Tok>, p: Place, item: Option<int>): (Place, Option<Status>) {
    if p.todo == [] then
      if item.None? then (p.(todo := loop, trace := p.trace + [Ended(p.flags)]), Some(Finished))
      else if !p.workdone then (p.(todo := loop), Some(Dry))
      else (p.(todo := loop, workdone := false, trace := p.trace + [Reverted]), None)
    else
      var rest := p.todo[1..];
      match p.todo[0]
      case Data(e) =>
        (match item
         case None => (p.(trace := p.trace + [Ended(p.flags)]), Some(Finished))
         case Some(x) =>
           (p.(todo := rest, workdone := true, trace := p.trace + [Edited(e, x, p.flags)]), Some(Transferred)))
      case Act(Stop) =>
        if item.None? then (p.(trace := p.trace + [Ended(p.flags)]), Some(Finished))
        else (p.(todo := rest), None)
      case Act(Move(d)) => (p.(todo := rest, trace := p.trace + [Moved(d, p.flags)]), None)
      case Act(Flag(c)) => (p.(todo := rest, flags := SetFlag(p.flags, c)), None)
  }

  /** From one item to the next, or to the end of the transfer. */
  function Next(loop: seq<Tok>, p: Place, item: Option<int>): (Place, Status)
    decreases p.workdone, |p.todo|
  {
    match Hop(loop, p, item)
    case (q, Some(status)) => (q, status)
    case (q, None) => Next(loop, q, item)
  }

  /** One call with several items; it returns early when a pass runs dry. */
  function Transfer(loop: seq<Tok>, p: Place, xs: seq<int>): (Place, Status)
    decreases |xs|
  {
    if xs == [] then (p, Transferred)
    else
      var r := Next(loop, p, Some(xs[0]));
      if r.1.Transferred? then Transfer(loop, r.0, xs[1..]) else r
  }

  // ----- the stream the standard describes -----

  datatype Mark = One(tok: Tok) | Rewind

  function Marks(toks: seq<Tok>): seq<Mark> {
    if toks == [] then [] else [One(toks[0])] + Marks(toks[1..])
  }

  /** The format once, then rounds reversions. */
  function Unrolled(toks: seq<Tok>, loop: seq<Tok>, rounds: nat): seq<Mark>
    decreases rounds
  {
    if rounds == 0 then Marks(toks)
    else Marks(toks) + [Rewind] + Unrolled(loop, loop, rounds - 1)
  }

  function DataCount(toks: seq<Tok>): nat {
    if toks == [] then 0 else (if toks[0].Data? then 1 else 0) + DataCount(toks[1..])
  }

  /** Reading the stream: each item goes to the next data descriptor; once no item is left,
      everything up to the next data descriptor, colon or closing parenthesis. */
  function Present(s: seq<Mark>, f: Flags, xs: seq<int>): seq<Event> {
    if s == [] then [Ended(f)]
    else
      match s[0]
      case Rewind => if xs == [] then [Ended(f)] else [Reverted] + Present(s[1..], f, xs)
      case One(Data(e)) => if xs == [] then [Ended(f)] else [Edited(e, xs[0], f)] + Present(s[1..], f, xs[1..])
      case One(Act(Stop)) => if xs == [] then [Ended(f)] else Present(s[1..], f, xs)
      case One(Act(Move(d))) => [Moved(d, f)] + Present(s[1..], f, xs)
      case One(Act(Flag(c))) => Present(s[1..], SetFlag(f, c), xs)
  }

  /** Present on the rest of one pass, with no item left. */
  function Closing(todo: seq<Tok>, f: Flags): seq<Event> {
    if todo == [] then [Ended(f)]
    else
      match todo[0]
      case Data(_) => [Ended(f)]
      case Act(Stop) => [Ended(f)]
      case Act(Move(d)) => [Moved(d, f)] + Closing(todo[1..], f)
      case Act(Flag(c)) => Closing(todo[1..], SetFlag(f, c))
  }

  // ----- the two agree -----

  lemma UnrolledHead(toks: seq<Tok>, loop: seq<Tok>, rounds: nat)
    requires toks != []
    ensures Unrolled(toks, loop, rounds) == [One(toks[0])] + Unrolled(toks[1..], loop, rounds)
  {
    if rounds > 0 {
      var later := [Rewind] + Unrolled(loop, loop, rounds - 1);
      AppendAssoc([One(toks[0])], Marks(toks[1..]), later);
      AppendAssoc(Marks(toks), [Rewind], Unrolled(loop, loop, rounds - 1));
      AppendAssoc(Marks(toks[1..]), [Rewind], Unrolled(loop, loop, rounds - 1));
    }
  }

  lemma UnrolledRewind(loop: seq<Tok>, rounds: nat)
    requires rounds > 0
    ensures Unrolled([], loop, rounds) == [Rewind] + Unrolled(loop, loop, rounds - 1)
  {
    assert Marks([]) + [Rewind] == [Rewind];
  }

  /** Everything presented from p on, past and future together. */
  ghost function Whole(loop: seq<Tok>, p: Place, rounds: nat, xs: seq<int>): seq<Event> {
    p.trace + Present(Unrolled(p.todo, loop, rounds), p.flags, xs)
  }

  /** One item: the calls made and the calls still to come are those of the stream. */
  lemma {:induction false} NextPresents(loop: seq<Tok>, p: Place, xs: seq<int>, rounds: nat) returns (left: nat)
    requires xs != []
    requires rounds > 0 ==> DataCount(loop) > 0 && (p.workdone || DataCount(p.todo) > 0)
    requires DataCount(p.todo) + rounds * DataCount(loop) >= |xs|
    ensures var (q, status) := Next(loop, p, Some(xs[0]));
            && status == Transferred && q.workdone && left <= rounds
            && DataCount(q.todo) + left * DataCount(loop) >= |xs| - 1
            && Whole(loop, q, left, xs[1..]) == Whole(loop, p, rounds, xs)
    decreases p.workdone, |p.todo|
  {
    if p.todo == [] {
      assert rounds > 0;
      UnrolledRewind(loop, rounds);
      assert Unrolled(p.todo, loop, rounds)[1..] == Unrolled(loop, loop, rounds - 1);
      AppendAssoc(p.trace, [Reverted], Present(Unrolled(loop, loop, rounds - 1), p.flags, xs));
      left := NextPresents(loop, p.(todo := loop, workdone := false, trace := p.trace + [Reverted]), xs, rounds - 1);
    } else {
      var rest := p.todo[1..];
      var ahead := Unrolled(rest, loop, rounds);
      UnrolledHead(p.todo, loop, rounds);
      assert Unrolled(p.todo, loop, rounds)[1..] == ahead;
      match p.todo[0]
      case Data(e) =>
        AppendAssoc(p.trace, [Edited(e, xs[0], p.flags)], Present(ahead, p.flags, xs[1..]));
        left := rounds;
      case Act(Stop) =>
        left := NextPresents(loop, p.(todo := rest), xs, rounds);
      case Act(Move(d)) =>
        AppendAssoc(p.trace, [Moved(d, p.flags)], Present(ahead, p.flags, xs));
        left := NextPresents(loop, p.(todo := rest, trace := p.trace + [Moved(d, p.flags)]), xs, rounds);
      case Act(Flag(c)) =>
        left := NextPresents(loop, p.(todo := rest, flags := SetFlag(p.flags, c)), xs, rounds);
    }
  }

  lemma {:induction false} PresentNoItem(todo: seq<Tok>, loop: seq<Tok>, rounds: nat, f: Flags)
    ensures Present(Unrolled(todo, loop, rounds), f, []) == Closing(todo, f)
    decreases |todo|
  {
    if todo == [] {
      if rounds > 0 {
        UnrolledRewind(loop, rounds);
      }
    } else {
      UnrolledHead(todo, loop, rounds);
      assert Unrolled(todo, loop, rounds)[1..] == Unrolled(todo[1..], loop, rounds);
      match todo[0]
      case Data(_) =>
      case Act(Stop) =>
      case Act(Move(_)) => PresentNoItem(todo[1..], loop, rounds, f);
      case Act(Flag(c)) => PresentNoItem(todo[1..], loop, rounds, SetFlag(f, c));
    }
  }

  /** Section 13.3: however many items there are, the calls made are those of the unrolled stream. */
  lemma {:induction false} TransferPresents(loop: seq<Tok>, p: Place, xs: seq<int>, rounds: nat)
    requires rounds > 0 ==> DataCount(loop) > 0 && (p.workdone || DataCount(p.todo) > 0)
    requires DataCount(p.todo) + rounds * DataCount(loop) >= |xs|
    ensures var (q, status) := Transfer(loop, p, xs);
            && status == Transferred
            && q.trace + Closing(q.todo, q.flags) == Whole(loop, p, rounds, xs)
    decreases |xs|
  {
    if xs == [] {
      PresentNoItem(p.todo, loop, rounds, p.flags);
    } else {
      var left := NextPresents(loop, p, xs, rounds);
      TransferPresents(loop, Next(loop, p, Some(xs[0])).0, xs[1..], left);
    }
  }

  /** The flags after a list of descriptors, and the calls for those that move the cursor. */
  function Turned(toks: seq<Tok>, f: Flags): Flags {
    if toks == [] then f
    else Turned(toks[1..], match toks[0] case Act(Flag(c)) => SetFlag(f, c) case _ => f)
  }

  function Moves(toks: seq<Tok>, f: Flags): seq<Event> {
    if toks == [] then []
    else
      match toks[0]
      case Act(Move(d)) => [Moved(d, f)] + Moves(toks[1..], f)
      case Act(Flag(c)) => Moves(toks[1..], SetFlag(f, c))
      case _ => Moves(toks[1..], f)
  }

  /** After pre, which has no data descriptors, with post ahead. */
  function Past(p: Place, pre: seq<Tok>, post: seq<Tok>): Place {
    p.(todo := post, flags := Turned(pre, p.flags), trace := p.trace + Moves(pre, p.flags))
  }

  /** An item waits while control passes descriptors that take none. */
  lemma {:induction false} NextPasses(loop: seq<Tok>, p: Place, x: int, pre: seq<Tok>, post: seq<Tok>)
    requires p.todo == pre + post && DataCount(pre) == 0
    ensures Next(loop, p, Some(x)) == Next(loop, Past(p, pre, post), Some(x))
    decreases |pre|
  {
    if pre == [] {
      assert p.todo == post && p.trace + [] == p.trace;
    } else {
      var rest := pre[1..];
      AppendCons(pre, post);
      var q := Hop(loop, p, Some(x)).0;
      NextPasses(loop, q, x, rest, post);
      if pre[0].Act? && pre[0].p.Move? {
        AppendAssoc(p.trace, [Moved(pre[0].p.ned, p.flags)], Moves(rest, p.flags));
      }
    }
  }

  /** Where a transfer stands that has run dry: at most one reversion after p. */
  function AfterDry(loop: seq<Tok>, p: Place): Place {
    var q := Past(p, p.todo, []);
    if p.workdone then Past(q.(todo := loop, workdone := false, trace := q.trace + [Reverted]), loop, loop)
    else q.(todo := loop)
  }

  /** Without data descriptors ahead control goes to the end of the pass and, if an item was moved in it,
      once through the reused part; then do_fio returns. */
  lemma NextWithoutData(loop: seq<Tok>, p: Place, x: int)
    requires DataCount(loop) == 0 && DataCount(p.todo) == 0
    ensures Next(loop, p, Some(x)) == (AfterDry(loop, p), Dry)
  {
    assert p.todo + [] == p.todo;
    NextPasses(loop, p, x, p.todo, []);
    if p.workdone {
      var q := Hop(loop, Past(p, p.todo, []), Some(x)).0;
      assert q.todo + [] == q.todo;
      NextPasses(loop, q, x, loop, []);
    }
  }

  /** An item is edited by the first data descriptor ahead. */
  lemma NextUsesFirst(loop: seq<Tok>, p: Place, x: int, pre: seq<Tok>, e: Ed, post: seq<Tok>)
    requires p.todo == pre + ([Data(e)] + post) && DataCount(pre) == 0
    ensures var q := Past(p, pre, post);
            Next(loop, p, Some(x)) ==
            (q.(workdone := true, trace := q.trace + [Edited(e, x, q.flags)]), Transferred)
  {
    NextPasses(loop, p, x, pre, [Data(e)] + post);
    assert ([Data(e)] + post)[1..] == post;
  }

  /** The first data descriptor of a list that has one. */
  lemma {:induction false} FirstData(toks: seq<Tok>) returns (pre: seq<Tok>, e: Ed, post: seq<Tok>)
    requires DataCount(toks) > 0
    ensures toks == pre + ([Data(e)] + post) && DataCount(pre) == 0 && DataCount(post) == DataCount(toks) - 1
  {
    if toks[0].Data? {
      pre, e, post := [], toks[0].ed, toks[1..];
    } else {
      pre, e, post := FirstData(toks[1..]);
      assert ([toks[0]] + pre)[1..] == pre;
      pre := [toks[0]] + pre;
    }
  }

  lemma NextUsesOne(loop: seq<Tok>, p: Place, x: int)
    requires DataCount(p.todo) > 0
    ensures var (q, status) := Next(loop, p, Some(x));
            status == Transferred && q.workdone && DataCount(q.todo) == DataCount(p.todo) - 1
  {
    var pre, e, post := FirstData(p.todo);
    NextUsesFirst(loop, p, x, pre, e, post);
  }

  /** A transfer runs dry exactly when the reused part moves no item and the items
      outnumber the data descriptors still ahead of the closing parenthesis. */
  lemma {:induction false} DryExactly(loop: seq<Tok>, p: Place, xs: seq<int>)
    requires DataCount(loop) > 0 ==> p.workdone || DataCount(p.todo) > 0
    ensures Transfer(loop, p, xs).1 == Dry <==> DataCount(loop) == 0 && |xs| > DataCount(p.todo)
    ensures Transfer(loop, p, xs).1 != Finished
    decreases |xs|
  {
    if DataCount(loop) > 0 {
      TransferPresents(loop, p, xs, |xs|);
      assert |xs| * DataCount(loop) >= |xs|;
    } else if xs != [] {
      if DataCount(p.todo) == 0 {
        NextWithoutData(loop, p, xs[0]);
      } else {
        NextUsesOne(loop, p, xs[0]);
        DryExactly(loop, Next(loop, p, Some(xs[0])).0, xs[1..]);
      }
    }
  }

  lemma {:induction false} NextCloses(loop: seq<Tok>, p: Place)
    ensures var (q, status) := Next(loop, p, None);
            status == Finished && q.trace == p.trace + Closing(p.todo, p.flags)
    decreases |p.todo|
  {
    if p.todo != [] {
      var rest := p.todo[1..];
      match p.todo[0]
      case Data(e) =>
      case Act(Stop) =>
      case Act(Move(d)) =>
        AppendAssoc(p.trace, [Moved(d, p.flags)], Closing(rest, p.flags));
        NextCloses(loop, p.(todo := rest, trace := p.trace + [Moved(d, p.flags)]));
      case Act(Flag(c)) =>
        NextCloses(loop, p.(todo := rest, flags := SetFlag(p.flags, c)));
    }
  }

  /** The items a call of do_fio(number, ptr, len) offers. */
  function Addresses(ptr: int, len: int, number: int): seq<int>
    decreases number
  {
    if number <= 0 then [] else [ptr] + Addresses(ptr + len, len, number - 1)
  }

  /** Item k is k lengths behind the first. */
  lemma {:induction false} AddressAt(ptr: int, len: int, number: int, k: nat)
    requires k < number
    ensures |Addresses(ptr, len, number)| == number && Addresses(ptr, len, number)[k] == ptr + k * len
    decreases number
  {
    if k > 0 {
      AddressAt(ptr + len, len, number - 1, k - 1);
      assert (ptr + len) + (k - 1) * len == ptr + k * len;
    } else if number > 1 {
      AddressAt(ptr + len, len, number - 1, 0);
    }
  }

  /** Splitting the items over two calls changes nothing, unless the first call runs dry. */
  lemma {:induction false} SplitCalls(loop: seq<Tok>, p: Place, xs: seq<int>, ys: seq<int>)
    ensures var (q, status) := Transfer(loop, p, xs);
            Transfer(loop, p, xs + ys) == if status == Transferred then Transfer(loop, q, ys) else (q, status)
    decreases |xs|
  {
    if xs == [] {
      assert xs + ys == ys;
    } else {
      AppendCons(xs, ys);
      SplitCalls(loop, Next(loop, p, Some(xs[0])).0, xs[1..], ys);
    }
  }
}
