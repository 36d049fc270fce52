// Unformatted sequential files: records framed by their lengths.
module FramedRecords {
  import opened Seqs

  type byte = x: int | 0 <= x < 256

  /** sizeof(uiolen); an uiolen is an int. */
  const MARK: nat := 4
  const LIMIT: nat := 0x8000_0000

  /** The bytes of a length, least significant first. */
  function Enc(n: nat): (r: seq<byte>)
    requires n < LIMIT
    ensures |r| == MARK
  {
    [n % 256, n / 256 % 256, n / 256 / 256 % 256, n / 256 / 256 / 256]
  }

  /** The int that four bytes hold. */
  function Dec(b: seq<byte>): (n: int)
    requires |b| == MARK
    ensures -(LIMIT as int) <= n < LIMIT
  {
    var high: int := if b[3] < 128 then b[3] as int else b[3] as int - 256;
    b[0] + 256 * (b[1] + 256 * (b[2] + 256 * high))
  }

  /** It is what the bytes amount to, modulo 2 ** 32. */
  lemma DecWraps(b: seq<byte>)
    requires |b| == MARK
    ensures var all := b[0] as int + 0x100 * (b[1] as int) + 0x1_0000 * (b[2] as int) + 0x100_0000 * (b[3] as int);
            Dec(b) == if all < LIMIT then all else all - 2 * LIMIT
  {}

  lemma DecEnc(n: nat)
    requires n < LIMIT
    ensures Dec(Enc(n)) == n
  {}

  type Record = r: seq<byte> | |r| < LIMIT

  function Frame(r: Record): seq<byte> { Enc(|r|) + r + Enc(|r|) }

  function Frames(recs: seq<Record>): seq<byte> {
    if recs == [] then [] else Frame(recs[0]) + Frames(recs[1..])
  }

  lemma {:induction false} FramesAppend(a: seq<Record>, b: seq<Record>)
    ensures Frames(a + b) == Frames(a) + Frames(b)
    decreases |a|
  {
    if a == [] {
      assert a + b == b && [] + Frames(b) == Frames(b);
    } else {
      FramesAppend(a[1..], b);
      AppendCons(a, b);
      AppendAssoc(Frame(a[0]), Frames(a[1..]), Frames(b));
    }
  }

  lemma FramesOne(r: Record)
    ensures Frames([r]) == Frame(r)
  {
    assert [r][1..] == [];
  }

  /** Where record k starts. */
  function Start(recs: seq<Record>, k: nat): nat
    requires k <= |recs|
  {
    |Frames(recs[..k])|
  }

  /** At this place of the file stand the record and its two marks. */
  ghost predicate FramedAt(file: seq<byte>, at: nat, r: Record) {
    && at + |r| + 2 * MARK <= |file|
    && file[at..at + MARK] == Enc(|r|)
    && file[at + MARK..at + MARK + |r|] == r
    && file[at + MARK + |r|..at + |r| + 2 * MARK] == Enc(|r|)
  }

  lemma BetweenOthers(p: seq<byte>, r: Record, q: seq<byte>)
    ensures FramedAt(p + Frame(r) + q, |p|, r)
  {}

  /** Every record of a file of frames is found where it starts, with its length on both sides. */
  lemma FrameAt(recs: seq<Record>, k: nat)
    requires k < |recs|
    ensures FramedAt(Frames(recs), Start(recs, k), recs[k])
    ensures Start(recs, k) + |recs[k]| + 2 * MARK == Start(recs, k + 1)
  {
    var before, after := recs[..k], recs[k + 1..];
    assert recs[..k + 1] == before + [recs[k]] && recs == recs[..k + 1] + after;
    FramesAppend(recs[..k + 1], after);
    FramesAppend(before, [recs[k]]);
    FramesOne(recs[k]);
    BetweenOthers(Frames(before), recs[k], Frames(after));
  }

  /** What a reader meets at at: the length of r, then every beginning of r, up to the end of its frame. */
  ghost predicate Readable(file: seq<byte>, at: nat, r: Record) {
    && at + |r| + 2 * MARK <= |file| && Dec(file[at..at + MARK]) == |r|
    && forall m | 0 <= m <= |r| :: file[at + MARK..at + MARK + m] == r[..m]
  }

  lemma FramedReads(file: seq<byte>, at: nat, r: Record)
    requires FramedAt(file, at, r)
    ensures Readable(file, at, r)
  {
    DecEnc(|r|);
    forall m | 0 <= m <= |r|
      ensures file[at + MARK..at + MARK + m] == r[..m]
    {
      assert file[at + MARK..at + MARK + m] == file[at + MARK..at + MARK + |r|][..m];
    }
  }

  lemma ReadableAt(recs: seq<Record>, k: nat)
    requires k < |recs|
    ensures Readable(Frames(recs), Start(recs, k), recs[k])
    ensures Start(recs, k) + |recs[k]| + 2 * MARK == Start(recs, k + 1)
  {
    FrameAt(recs, k);
    FramedReads(Frames(recs), Start(recs, k), recs[k]);
  }

  /** Where f_back leads on an unformatted file: a seek that would lead before the start fails, and where
      there is no mark to read the length is junk. */
  function BackPos(file: seq<byte>, pos: nat, junk: int): (p: nat) {
    var from := if pos >= MARK then pos - MARK else pos;
    var found := from + MARK <= |file|;
    var n := if found then Dec(file[from..from + MARK]) else junk;
    var stop := if found then from + MARK else if from > |file| then from else |file|;
    if stop - n - 2 * MARK >= 0 then stop - n - 2 * MARK else stop
  }

  lemma BackOver(file: seq<byte>, at: nat, r: Record, pos: nat, junk: int)
    requires FramedAt(file, at, r) && pos == at + |r| + 2 * MARK
    ensures BackPos(file, pos, junk) == at
  {
    DecEnc(|r|);
  }

  /** From the start of a record it leads to the start of the record before it. */
  lemma BackToPrevious(recs: seq<Record>, k: nat, junk: int)
    requires 0 < k <= |recs|
    ensures BackPos(Frames(recs), Start(recs, k), junk) == Start(recs, k - 1)
  {
    FrameAt(recs, k - 1);
    BackOver(Frames(recs), Start(recs, k - 1), recs[k - 1], Start(recs, k), junk);
  }

  /** From the start of the first record it leads to the place after its mark; in an empty file it
      stays unless junk is low. */
  lemma BackFromFirst(recs: seq<Record>, junk: int)
    ensures Start(recs, 0) == 0
    ensures recs != [] ==> Frames(recs) != [] && BackPos(Frames(recs), 0, junk) == MARK
    ensures recs == [] ==> (BackPos(Frames(recs), 0, junk) == 0 <==> junk >= -2 * MARK)
  {
    assert recs[..0] == [];
    if recs != [] {
      FrameAt(recs, 0);
      DecEnc(|recs[0]|);
    }
  }
}
