// A unit connected for unformatted sequential access: s_wsue, e_wsue, s_rsue and e_rsue
// of libf2c/sue.c, do_us of uio.c, f_back, f_rew and the truncation of endfile.c; and
// f_back's scan of a formatted file.
module SequentialFile {
  import opened FramedRecords
  import opened Seqs

  function Max(a: int, b: int): int { if a > b then a else b }

  /** What fwrite leaves of a file: bytes past its end are reached over zeros. */
  function Written(file: seq<byte>, pos: nat, bytes: seq<byte>): (r: seq<byte>)
    ensures |r| == if bytes == [] || pos + |bytes| <= |file| then |file| else pos + |bytes|
    ensures forall i | 0 <= i < |r| ::
              r[i] == if pos <= i < pos + |bytes| then bytes[i - pos] else if i < |file| then file[i] else 0
  {
    seq(if bytes == [] || pos + |bytes| <= |file| then |file| else pos + |bytes|,
        i requires i >= 0 => if pos <= i < pos + |bytes| then bytes[i - pos] else if i < |file| then file[i] else 0)
  }

  function Concat(parts: seq<seq<byte>>): seq<byte> {
    if parts == [] then [] else parts[0] + Concat(parts[1..])
  }

  function Total(lens: seq<nat>): nat {
    if lens == [] then 0 else lens[0] + Total(lens[1..])
  }

  /** uwrt: reading, writing, or rewound after writing. */
  datatype Mode = Reading | Writing | Rewound

  datatype Status = Done | AtEof | PastRecord | CutShort

  /** Writing on after a. */
  lemma WrittenOn(file: seq<byte>, pos: nat, a: seq<byte>, b: seq<byte>)
    ensures Written(Written(file, pos, a), pos + |a|, b) == Written(file, pos, a + b)
  {}

  /** Writing a into the room left before b. */
  lemma WrittenBefore(file: seq<byte>, pos: nat, a: seq<byte>, b: seq<byte>)
    ensures Written(Written(file, pos + |a|, b), pos, a) == Written(file, pos, a + b)
  {}

  lemma WrittenAt(file: seq<byte>, pos: nat, bytes: seq<byte>)
    requires pos <= |file|
    ensures var after := Written(file, pos, bytes);
            pos + |bytes| <= |after| && after[..pos + |bytes|] == file[..pos] + bytes
  {}

  /** What a READ for lens bytes at pos makes of the bytes there. */
  ghost predicate Taken(file: seq<byte>, pos: nat, lens: seq<nat>, status: Status, data: seq<byte>) {
    if pos + MARK > |file| then status.AtEof? else
    var at, n := pos + MARK, Dec(file[pos..pos + MARK]);
    && (status.Done? <==> (lens == [] || Total(lens) <= n) && at + Total(lens) <= |file|)
    && (status.Done? ==> data == file[at..at + Total(lens)])
    && (status.PastRecord? ==> Total(lens) > n) && (status.CutShort? ==> at + n > |file|) && !status.AtEof?
  }

  lemma TakenReadable(file: seq<byte>, pos: nat, r: Record, lens: seq<nat>, status: Status, data: seq<byte>)
    requires Readable(file, pos, r) && Taken(file, pos, lens, status, data)
    ensures status == if Total(lens) <= |r| then Done else PastRecord
    ensures status.Done? ==> data == r[..Total(lens)]
  {}

  /** The file after a long record, REWIND and an empty record. */
  lemma LongerFile(longer: Record, was: seq<byte>)
    requires longer == [0, 0, 0, 0, 1, 0, 0, 0, 9, 1, 0, 0, 0] && was == Frames([longer])
    ensures var file := Written(was, 0, Frame([]));
            |file| > 2 * MARK + MARK + 1 && Dec(file[2 * MARK..3 * MARK]) == 1 && file[3 * MARK..3 * MARK + 1] == [9]
  {
    FramesOne(longer);
    assert was == [13, 0, 0, 0] + longer + [13, 0, 0, 0];
  }

  class Unit {
    var file: seq<byte>
    var pos: nat
    var uwrt: Mode
    var uend: bool
    var reclen: int
    var recpos: nat
    var recloc: nat

    ghost var recs: seq<Record>
    ghost var k: nat

    /** Between statements the position is at the start of record k; what lies before it is frames,
        and so is the rest unless the unit is being written. */
    ghost predicate Valid()
      reads this
    {
      && k <= |recs| && pos == Start(recs, k)
      && (if uwrt.Writing? then k == |recs| && pos <= |file| && file[..pos] == Frames(recs) else file == Frames(recs))
      && (uwrt.Rewound? ==> k == 0) && (uwrt.Writing? ==> k > 0)
    }

    constructor ()
      ensures Valid() && recs == [] && k == 0 && !uend && uwrt.Reading?
    {
      file, pos, uwrt, uend, reclen, recpos, recloc, recs, k := [], 0, Reading, false, 0, 0, 0, [], 0;
    }

    lemma BeforeStart()
      requires Valid()
      ensures pos <= |file| && file[..pos] == Frames(recs[..k])
    {
      if !uwrt.Writing? {
        assert recs == recs[..k] + recs[k..];
        FramesAppend(recs[..k], recs[k..]);
        assert (Frames(recs[..k]) + Frames(recs[k..]))[..pos] == Frames(recs[..k]);
      } else {
        assert recs[..k] == recs;
      }
    }

    method Fwrite(bytes: seq<byte>)
      modifies this`file, this`pos
      ensures file == Written(old(file), old(pos), bytes) && pos == old(pos) + |bytes|
    {
      file := Written(file, pos, bytes);
      pos := pos + |bytes|;
    }

    /** A WRITE statement whose list transfers parts: s_wsue, do_us for each, e_wsue. The rest of the
        file stays where it was. */
    method WriteRecord(parts: seq<seq<byte>>)
      requires Valid() && |Concat(parts)| < LIMIT
      modifies this
      ensures Valid() && uwrt.Writing? && uend == old(uend)
      ensures recs == old(recs)[..old(k)] + [Concat(parts)] && k == old(k) + 1
      ensures file == Written(old(file), old(pos), Frame(Concat(parts)))
    {
      ghost var file0, pos0, before, data: Record := file, pos, recs[..k], Concat(parts);
      BeforeStart();
      PutRecord(parts);
      WrittenAt(file0, pos0, Frame(data));
      FramesAppend(before, [data]);
      FramesOne(data);
      recs, k := before + [data], k + 1;
      assert recs[..k] == recs;
    }

    /** The same in terms of the bytes of the file. */
    method PutRecord(parts: seq<seq<byte>>)
      requires |Concat(parts)| < LIMIT
      modifies this`file, this`pos, this`reclen, this`uwrt, this`recloc
      ensures uwrt.Writing? && pos == old(pos) + |Frame(Concat(parts))|
      ensures file == Written(old(file), old(pos), Frame(Concat(parts)))
    {
      ghost var file0, data: Record := file, Concat(parts);
      reclen, uwrt, recloc := 0, Writing, pos;
      pos := pos + MARK;
      Transfer(parts);
      WrittenOn(file0, recloc + MARK, data, Enc(|data|));
      Fwrite(Enc(reclen));
      var loc := pos;
      pos := recloc;
      WrittenBefore(file0, recloc, Enc(|data|), data + Enc(|data|));
      AppendAssoc(Enc(|data|), data, Enc(|data|));
      Fwrite(Enc(reclen));
      pos := loc;
    }

    /** do_us on the parts of a record being written. */
    method Transfer(parts: seq<seq<byte>>)
      requires reclen == 0
      modifies this`file, this`pos, this`reclen
      ensures file == Written(old(file), old(pos), Concat(parts))
      ensures pos == old(pos) + |Concat(parts)| && reclen == |Concat(parts)|
    {
      ghost var data: seq<byte> := [];
      var i := 0;
      while i < |parts|
        invariant 0 <= i <= |parts| && data + Concat(parts[i..]) == Concat(parts)
        invariant file == Written(old(file), old(pos), data) && pos == old(pos) + |data| && reclen == |data|
      {
        WrittenOn(old(file), old(pos), data, parts[i]);
        AppendAssoc(data, parts[i], Concat(parts[i + 1..]));
        assert parts[i..][1..] == parts[i + 1..];
        reclen := reclen + |parts[i]|;
        Fwrite(parts[i]);
        data := data + parts[i];
        i := i + 1;
      }
      assert data == Concat(parts);
    }

    /** Nothing lies past the position of a unit being written, as it may after overwriting a longer file. */
    ghost predicate Settled()
      reads this
    {
      uwrt.Writing? ==> pos == |file|
    }

    /** A READ statement whose list asks for lens bytes. Settled, it gets the next record, or the end of the
        file if there is none. Directly after a WRITE there is none, and it gets the end of the file exactly
        if less than a mark lies past the position; ReadsWhatNobodyWrote shows what it may get otherwise. */
    method ReadRecord(lens: seq<nat>) returns (status: Status, data: seq<byte>)
      requires Valid()
      modifies this
      ensures recs == old(recs) && file == old(file)
      ensures Taken(file, old(pos), lens, status, data)
      ensures status.AtEof? <==> old(pos) + MARK > |file|
      ensures old(Settled()) ==> (status.AtEof? <==> old(k) == |recs|)
      ensures old(Settled()) && status.AtEof? ==> Valid() && uend && k == old(k)
      ensures old(Settled()) && old(k) < |recs| ==> status == if Total(lens) <= |recs[old(k)]| then Done else PastRecord
      ensures old(Settled()) && status.Done? ==>
                && Valid() && k == old(k) + 1 && uend == old(uend) && uwrt.Reading?
                && data == recs[old(k)][..Total(lens)]
    {
      ghost var settled := Settled();
      if settled {
        assert file[..|file|] == file;
        if k == |recs| {
          assert recs[..k] == recs;
        } else {
          ReadableAt(recs, k);
        }
      }
      ghost var at := pos;
      status, data := TakeRecord(lens);
      if settled && k < |recs| {
        TakenReadable(file, at, recs[k], lens, status, data);
        if status.Done? {
          k := k + 1;
        }
      }
    }

    /** The same, leaving out the records: s_rsue, do_us for each length, e_rsue. */
    method TakeRecord(lens: seq<nat>) returns (status: Status, data: seq<byte>)
      requires pos <= |file|
      modifies this`pos, this`uwrt, this`uend, this`reclen, this`recpos
      ensures uwrt.Reading? && uend == (old(uend) || status.AtEof?)
      ensures Taken(file, old(pos), lens, status, data)
      ensures status.AtEof? ==> pos == |file|
      ensures status.Done? ==> pos == Max(0, old(pos) + 2 * MARK + Dec(file[old(pos)..old(pos) + MARK]))
    {
      status, data, recpos, uwrt := Done, [], 0, Reading;
      if pos + MARK > |file| {
        pos, uend, status := |file|, true, AtEof;
        return;
      }
      reclen := Dec(file[pos..pos + MARK]);
      pos := pos + MARK;
      status, data := Fetch(lens);
      if status.Done? {
        pos := Max(0, pos + (reclen - recpos + MARK));
      }
    }

    /** do_us on a record being read. */
    method Fetch(lens: seq<nat>) returns (status: Status, data: seq<byte>)
      requires recpos == 0 && pos <= |file|
      modifies this`recpos, this`pos
      ensures status.Done? <==> (lens == [] || Total(lens) <= reclen) && old(pos) + Total(lens) <= |file|
      ensures status.Done? ==> recpos == Total(lens) && pos == old(pos) + recpos && data == file[old(pos)..pos]
      ensures !status.AtEof? && (status.PastRecord? ==> Total(lens) > reclen)
      ensures status.CutShort? ==> old(pos) + reclen > |file|
    {
      data := [];
      var i := 0;
      while i < |lens|
        invariant 0 <= i <= |lens| && recpos + Total(lens[i..]) == Total(lens) && 0 <= recpos
        invariant pos == old(pos) + recpos <= |file| && (i == 0 || recpos <= reclen) && data == file[old(pos)..pos]
      {
        assert lens[i..][1..] == lens[i + 1..];
        recpos := recpos + lens[i];
        if recpos > reclen {
          return PastRecord, data;
        }
        if pos + lens[i] > |file| {
          return CutShort, data;
        }
        assert file[old(pos)..pos] + file[pos..pos + lens[i]] == file[old(pos)..pos + lens[i]];
        data := data + file[pos..pos + lens[i]];
        pos := pos + lens[i];
        i := i + 1;
      }
      status := Done;
    }

    /** t_runc: what lies past the position is cut off. */
    method Truncate()
      modifies this`file
      ensures file == if pos < |old(file)| then old(file)[..pos] else old(file)
    {
      if pos < |file| {
        file := file[..pos];
      }
    }

    /** REWIND. */
    method Rewind()
      requires Valid()
      modifies this
      ensures Valid() && recs == old(recs) && k == pos == 0
      ensures uwrt == if old(uwrt).Writing? then Rewound else old(uwrt)
      ensures uend == (old(uend) && old(uwrt).Rewound?)
    {
      if uwrt.Rewound? {
        return;
      }
      if uwrt.Writing? {
        Truncate();
        uwrt := Rewound;
      }
      pos, uend, k := 0, false, 0;
      assert recs[..0] == [];
    }

    /** A unit that was written goes over to reading: after a REWIND nothing is left of it. */
    method EndWriting()
      requires Valid()
      modifies this`file, this`uwrt, this`recs
      ensures Valid() && uwrt.Reading?
      ensures recs == if old(uwrt).Rewound? then [] else old(recs)
    {
      if !uwrt.Reading? {
        Truncate();
        if uwrt.Rewound? {
          recs := [];
        }
        uwrt := Reading;
      }
    }

    /** BACKSPACE; junk is what the variable n holds before it is read. With a record before the
        position, it is stepped over. At the initial point, where the standard asks for no effect,
        a file that has been read is left inside the mark of its first record, one that has been
        written and rewound is emptied, and for an empty file it depends on junk. */
    method Backspace(junk: int)
      requires Valid()
      modifies this
      ensures !uend
      ensures old(uend) ==> Valid() && recs == old(recs) && k == old(k)
      ensures !old(uend) && old(k) > 0 ==> Valid() && recs == old(recs) && k == old(k) - 1 && uwrt.Reading?
      ensures !old(uend) && old(k) == 0 ==> recs == if old(uwrt).Rewound? then [] else old(recs)
      ensures !old(uend) && old(k) == 0 ==> file == Frames(recs) && pos == BackPos(file, 0, junk)
      ensures !old(uend) && old(k) == 0 && recs != [] ==> pos == MARK
      ensures !old(uend) && old(k) == 0 ==>
                (file == old(file) && pos == old(pos) <==> old(file) == [] && junk >= -2 * MARK)
    {
      if uend {
        uend := false;
        return;
      }
      EndWriting();
      if k > 0 {
        BackToPrevious(recs, k, junk);
        k := k - 1;
      } else {
        BackFromFirst(recs, junk);
      }
      StepBack(junk);
    }

    /** f_back on an unformatted file. */
    method StepBack(junk: int)
      modifies this`pos
      ensures pos == BackPos(file, old(pos), junk)
    {
      if pos >= MARK {
        pos := pos - MARK;
      }
      var n := junk;
      if pos + MARK <= |file| {
        n := Dec(file[pos..pos + MARK]);
        pos := pos + MARK;
      } else {
        pos := if pos > |file| then pos else |file|;
      }
      if pos - n - 2 * MARK >= 0 {
        pos := pos - n - 2 * MARK;
      }
    }
  }

  /** After REWIND a long record is overwritten by an empty one: of what is left of its bytes a READ
      makes a record that nobody wrote. */
  method ReadsWhatNobodyWrote() returns (status: Status, data: seq<byte>)
    ensures status == Done && data == [9]
  {
    var longer: Record := [0, 0, 0, 0, 1, 0, 0, 0, 9, 1, 0, 0, 0];
    var u := new Unit();
    assert Concat([longer]) == longer + Concat([]) == longer;
    u.WriteRecord([longer]);
    u.Rewind();
    assert u.recs == [longer] && u.recs[..0] == [];
    LongerFile(longer, u.file);
    u.WriteRecord([]);
    FramesOne([]);
    assert u.recs == [[]] && u.recs[..1] == [[]];
    assert u.pos == 2 * MARK;
    assert Total([1]) == 1 + Total([1][1..]) == 1;
    status, data := u.ReadRecord([1]);
  }

  // ----- formatted files -----

  /** The start of the record that ends just before w: after the newline before its own. */
  ghost predicate LastStart(text: string, w: nat, z: nat) {
    && 0 < w <= |text| && z < w
    && (z > 0 ==> text[z - 1] == '\n')
    && (forall i | z <= i < w - 1 :: text[i] != '\n')
  }

  /** f_back on a formatted file: the text is searched backward in steps of 64 characters. */
  method ScanBack(text: string, w: nat) returns (ok: bool, z: nat)
    requires w <= |text|
    ensures ok <==> w == 0 || text[w - 1] == '\n'
    ensures ok ==> if w == 0 then z == 0 else LastStart(text, w, z)
  {
    var x := w;
    z, ok := 0, true;
    while x != 0
      invariant 0 <= x <= w && (x < w ==> text[w - 1] == '\n')
      invariant z == 0 && forall i | x <= i < w - 1 :: text[i] != '\n'
      decreases x
    {
      x := if x < 64 then 0 else x - 64;
      var y, closed := x, false;
      while y < w && !closed
        invariant 0 <= x <= y <= w && x < w && (closed <==> y == w && text[w - 1] == '\n')
        invariant z == 0 || (x < z < w && text[z - 1] == '\n')
        invariant forall i | Max(x, z) <= i < y && i < w - 1 :: text[i] != '\n'
        decreases w - y
      {
        if text[y] == '\n' {
          var v := y + 1;
          if v == w {
            closed := true;
          } else {
            z := v;
          }
        }
        y := y + 1;
      }
      if !closed {
        return false, 0;
      }
      if z != 0 {
        return;
      }
    }
  }
}
