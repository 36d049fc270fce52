// The record of formatted output as section 13.5.3 of ANSI X3.9-1978 describes it:
// positioning is immediate, later characters replace earlier ones.
module RecordOverlay {
  import opened Options

  /** The characters of the record and the position of the next one, counted from 0. */
  datatype Record = Record(text: seq<char>, pos: int)

  function Blanks(n: int): (s: seq<char>)
    ensures |s| == (if n < 0 then 0 else n) && forall k | 0 <= k < |s| :: s[k] == ' '
  {
    seq(if n < 0 then 0 else n, _ => ' ')
  }

  /** text, made at least n long. */
  function Pad(text: seq<char>, n: int): seq<char> { text + Blanks(n - |text|) }

  /** s replaces what text has from pos on. */
  function Overlay(text: seq<char>, pos: int, s: seq<char>): seq<char>
    requires 0 <= pos <= |text|
  {
    text[..pos] + s + (if pos + |s| < |text| then text[pos + |s|..] else [])
  }

  function Put(r: Record, s: seq<char>): Record
    requires r.pos >= 0
  {
    Record(Overlay(Pad(r.text, r.pos), r.pos, s), r.pos + |s|)
  }

  /** A column holds what was last put there, and a blank if it was only skipped. */
  lemma PutColumns(r: Record, s: seq<char>, k: nat)
    requires r.pos >= 0
    ensures var t := Put(r, s).text;
            && (k < |t| <==> k < |r.text| || k < r.pos + |s|)
            && (k < |t| ==>
                  t[k] == if r.pos <= k < r.pos + |s| then s[k - r.pos] else if k < |r.text| then r.text[k] else ' ')
  {}

  /** Text that follows text is put where that ends. */
  lemma PutPut(r: Record, a: seq<char>, b: seq<char>)
    requires r.pos >= 0
    ensures Put(Put(r, a), b) == Put(r, a + b)
  {
    var x, y := Put(Put(r, a), b).text, Put(r, a + b).text;
    assert |x| == |y|;
    forall k | 0 <= k < |x|
      ensures x[k] == y[k]
    {
      PutColumns(r, a, k);
      PutColumns(Put(r, a), b, k);
      PutColumns(r, a + b, k);
    }
  }

  /** What a format does to the record: characters, T, TL, TR or X, and the slash. */
  datatype Op = Text(s: seq<char>) | T(n: nat) | TL(n: nat) | TR(n: nat) | Slash

  /** A file and the record being written to it. */
  datatype Output = Output(file: seq<char>, rec: Record)

  function NewRecord(o: Output): Output { Output(o.file + o.rec.text + "\n", Record([], 0)) }

  /** One step; None if characters are put left of the record. */
  function Step(o: Output, op: Op): Option<Output> {
    var r := o.rec;
    match op
    case Text(s) => if r.pos < 0 then None else Some(o.(rec := Put(r, s)))
    case T(n) => Some(o.(rec := r.(pos := n - 1)))
    case TL(n) => Some(o.(rec := r.(pos := if r.pos - n < 0 then 0 else r.pos - n)))
    case TR(n) => Some(o.(rec := r.(pos := r.pos + n)))
    case Slash => Some(NewRecord(o))
  }

  function Steps(o: Output, ops: seq<Op>): Option<Output>
    decreases |ops|
  {
    if ops == [] then Some(o)
    else
      var o' := Step(o, ops[0]);
      if o'.None? then None else Steps(o'.value, ops[1..])
  }

  /** Moves just before the end of a record add nothing to it. */
  lemma {:induction false} TrailingMoves(o: Output, ops: seq<Op>)
    requires forall k | 0 <= k < |ops| :: ops[k].T? || ops[k].TL? || ops[k].TR?
    ensures Steps(o, ops).Some? && NewRecord(Steps(o, ops).value) == NewRecord(o)
    decreases |ops|
  {
    if ops != [] {
      TrailingMoves(Step(o, ops[0]).value, ops[1..]);
    }
  }
}
