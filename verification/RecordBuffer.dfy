// The buffer libf2c builds an external formatted record in: f__buf and its growth
// (open.c), the delayed cursor (wrtfmt.c) and the ends of records (wsfe.c).
module RecordBuffer {
  import opened Options
  import opened RecordOverlay

  const NUL: char := 0 as char

  function Lmax(a: int, b: int): int { if a > b then a else b }

  class Recorder {
    var buf: array<char>
    /** f__buf is still f__buf0. */
    var initial: bool
    var buflen: int
    var recpos: int
    var hiwater: int
    var cursor: int
    /** What has been written to f__cf. */
    var file: seq<char>

    ghost predicate Valid()
      reads this
    {
      0 < buf.Length == buflen && 0 <= recpos <= buflen && 0 <= hiwater <= buflen
    }

    ghost function Now(): Output
      requires Valid()
      reads this, buf
    {
      Output(file, Record(buf[..Lmax(hiwater, recpos)], recpos + cursor))
    }

    constructor ()
      ensures Valid() && fresh(buf) && Now() == Output([], Record([], 0))
    {
      buf := new char[400];
      initial, buflen, recpos, hiwater, cursor, file := true, 400, 0, 0, 0, [];
    }

    /** f__bufadj: room for more than n characters; the first c are kept. */
    method Bufadj(n: int, c: int)
      requires Valid() && 0 <= n && 0 <= c <= buflen && c <= n + 1
      modifies this`buf, this`buflen, this`initial
      ensures Valid() && fresh(buf) && buflen > n && buflen >= old(buflen) && !initial
      ensures buf[..c] == old(buf[..c])
    {
      var was := buf;
      if initial {
        buflen := if buflen < 1024 then 1024 else buflen;
      }
      while buflen <= n
        invariant buflen >= was.Length > 0
        decreases n - buflen
      {
        buflen := 2 * buflen;
      }
      var nbuf := new char[buflen];
      var i := 0;
      while i < c
        invariant 0 <= i <= c && nbuf.Length == buflen && fresh(nbuf)
        invariant nbuf[..i] == was[..i]
        modifies nbuf
      {
        nbuf[i] := was[i];
        i := i + 1;
      }
      buf, initial := nbuf, false;
    }

    /** x_putc. */
    method Putc(c: char)
      requires Valid() && cursor == 0
      modifies this, buf
      ensures Valid() && (buf == old(buf) || fresh(buf)) && cursor == 0
      ensures recpos == old(recpos) + 1 && hiwater == old(hiwater)
      ensures Now() == old(Now()).(rec := Put(old(Now()).rec, [c]))
    {
      ghost var text := buf[..Lmax(hiwater, recpos)];
      if recpos >= buflen {
        Bufadj(recpos, buflen);
      }
      assert buf[..|text|] == text;
      buf[recpos] := c;
      recpos := recpos + 1;
      assert buf[..Lmax(hiwater, recpos)] == Overlay(Pad(text, recpos - 1), recpos - 1, [c]);
    }

    method PutBlanks(n: int)
      requires Valid() && cursor == 0 && n >= 0
      modifies this, buf
      ensures Valid() && (buf == old(buf) || fresh(buf)) && cursor == 0
      ensures recpos == old(recpos) + n && hiwater == old(hiwater)
      ensures Now() == old(Now()).(rec := Put(old(Now()).rec, Blanks(n)))
    {
      var left := n;
      ghost var r := Now().rec;
      assert Put(r, Blanks(0)) == r;
      while left > 0
        invariant 0 <= left <= n && Valid() && (buf == old(buf) || fresh(buf)) && cursor == 0
        invariant recpos == old(recpos) + n - left && hiwater == old(hiwater)
        invariant Now() == old(Now()).(rec := Put(r, Blanks(n - left)))
      {
        PutPut(r, Blanks(n - left), [' ']);
        assert Blanks(n - left) + [' '] == Blanks(n - left + 1);
        Putc(' ');
        left := left - 1;
      }
    }

    /** mv_cur: the cursor is settled before characters are put. */
    method Settle() returns (ok: bool)
      requires Valid()
      modifies this, buf
      ensures Valid() && (buf == old(buf) || fresh(buf))
      ensures ok <==> old(recpos + cursor) >= 0
      ensures ok ==> cursor == 0 && Now() == old(Now()).(rec := Put(old(Now()).rec, []))
    {
      var c := cursor;
      cursor, ok := 0, true;
      if c > 0 {
        MoveRight(c);
      } else if c < 0 {
        if c + recpos < 0 {
          return false;
        }
        if hiwater < recpos {
          hiwater := recpos;
        }
        recpos := recpos + c;
      }
      SettledText(old(Now()).rec, Now().rec);
    }

    /** Blanks as far as the record does not reach. */
    method MoveRight(c0: int)
      requires Valid() && cursor == 0 && c0 > 0
      modifies this, buf
      ensures Valid() && (buf == old(buf) || fresh(buf)) && cursor == 0 && recpos == old(recpos) + c0
      ensures var was := old(Now()).rec;
              Now() == old(Now()).(rec := Record(Pad(was.text, was.pos + c0), was.pos + c0))
    {
      var c := c0;
      if hiwater <= recpos {
        PutBlanks(c);
      } else if hiwater <= recpos + c {
        c := c - (hiwater - recpos);
        recpos := hiwater;
        PutBlanks(c);
      } else {
        recpos := recpos + c;
      }
    }

    /** Characters put at a settled cursor. */
    method PutChars(s: seq<char>)
      requires Valid() && cursor == 0
      modifies this, buf
      ensures Valid() && (buf == old(buf) || fresh(buf))
      ensures Now() == old(Now()).(rec := Put(old(Now()).rec, s))
    {
      ghost var was := Now();
      AtCursor(was.rec);
      var i := 0;
      assert s[..0] == [];
      while i < |s|
        invariant 0 <= i <= |s| && Valid() && (buf == old(buf) || fresh(buf)) && cursor == 0
        invariant Now() == was.(rec := Put(was.rec, s[..i]))
      {
        PutPut(was.rec, s[..i], [s[i]]);
        assert s[..i] + [s[i]] == s[..i + 1];
        Putc(s[i]);
        i := i + 1;
      }
      assert s[..i] == s;
    }

    /** What an edit descriptor or a character constant puts. */
    method PutText(s: seq<char>) returns (ok: bool)
      requires Valid()
      modifies this, buf
      ensures Valid() && (buf == old(buf) || fresh(buf))
      ensures var o := Step(old(Now()), Text(s)); ok == o.Some? && (ok ==> Now() == o.value)
    {
      ok := true;
      ghost var was := Now().rec;
      if cursor != 0 {
        ok := Settle();
        if !ok {
          return;
        }
        PutPut(was, [], s);
        assert [] + s == s;
      }
      PutChars(s);
    }

    /** f__putbuf: the record, and the character c unless it is NUL. */
    method Putbuf(c: char)
      requires Valid()
      modifies this, buf
      ensures Valid() && (buf == old(buf) || fresh(buf))
      ensures file == old(Now()).file + old(Now()).rec.text + if c == NUL then [] else [c]
    {
      ghost var text := Now().rec.text;
      if hiwater > recpos {
        recpos := hiwater;
      }
      var n := recpos + 1;
      if n >= buflen {
        Bufadj(n, recpos);
      }
      assert buf[..recpos] == text;
      var se := recpos;
      if c != NUL {
        buf[se] := c;
        se := se + 1;
      }
      buf[se] := NUL;
      assert buf[..se] == text + if c == NUL then [] else [c];
      Emit(se);
    }

    /** The loop of f__putbuf: what comes before the NUL at se is written, NULs and all. */
    method Emit(se: int)
      requires Valid() && 0 <= se < buf.Length && buf[se] == NUL
      modifies this`file
      ensures file == old(file) + buf[..se]
    {
      var s := 0;
      while true
        invariant 0 <= s <= se && file == old(file) + buf[..s]
        decreases se - s
      {
        ghost var from := s;
        s := Fputs(s, se);
        assert old(file) + buf[..from] + buf[from..s] == old(file) + buf[..s];
        if s >= se {
          break;
        }
        assert old(file) + buf[..s] + [buf[s]] == old(file) + buf[..s + 1];
        file := file + [buf[s]];
        s := s + 1;
      }
    }

    /** fputs(s, f__cf), and s + strlen(s); the buffer has a NUL at se. */
    method Fputs(s: int, ghost se: int) returns (end: int)
      requires Valid() && 0 <= s <= se < buf.Length && buf[se] == NUL
      modifies this`file
      ensures s <= end <= se && buf[end] == NUL && file == old(file) + buf[s..end]
    {
      end := s;
      while buf[end] != NUL
        invariant s <= end <= se && file == old(file) + buf[s..end]
        decreases se - end
      {
        file := file + [buf[end]];
        end := end + 1;
      }
    }

    /** x_wSL, and xw_end unless the newline is suppressed. */
    method EndRecord()
      requires Valid()
      modifies this, buf
      ensures Valid() && (buf == old(buf) || fresh(buf))
      ensures Now() == NewRecord(old(Now()))
    {
      Putbuf('\n');
      hiwater, recpos, cursor := 0, 0, 0;
    }

    /** xw_end. */
    method End(nonl: bool)
      requires Valid()
      modifies this, buf
      ensures Valid() && (buf == old(buf) || fresh(buf))
      ensures Now() == if nonl then Output(old(Now()).file + old(Now()).rec.text, Record([], 0))
              else NewRecord(old(Now()))
    {
      Putbuf(if nonl then NUL else '\n');
      hiwater, recpos, cursor := 0, 0, 0;
    }

    /** w_ned's moves and slash, and the putting of characters. */
    method Do(op: Op) returns (ok: bool)
      requires Valid()
      modifies this, buf
      ensures Valid() && (buf == old(buf) || fresh(buf))
      ensures var o := Step(old(Now()), op); ok == o.Some? && (ok ==> Now() == o.value)
    {
      ok := true;
      match op {
        case Text(s) => ok := PutText(s);
        case T(n) => cursor := n - recpos - 1;
        case TL(n) =>
          cursor := cursor - n;
          if cursor < -recpos {
            cursor := -recpos;
          }
        case TR(n) => cursor := cursor + n;
        case Slash => EndRecord();
      }
    }

    /** A whole statement: what reaches the file is what the record rules of the standard give. */
    method Write(ops: seq<Op>, nonl: bool) returns (ok: bool)
      requires Valid() && recpos == hiwater == cursor == 0
      modifies this, buf
      ensures Valid() && (buf == old(buf) || fresh(buf))
      ensures var o := Steps(Output(old(file), Record([], 0)), ops);
              && (ok <==> o.Some?)
              && (ok ==> file == o.value.file + o.value.rec.text + if nonl then [] else "\n")
    {
      ghost var all := Steps(Now(), ops);
      var i := 0;
      while i < |ops|
        invariant 0 <= i <= |ops| && Valid() && (buf == old(buf) || fresh(buf))
        invariant Steps(Now(), ops[i..]) == all
      {
        ok := Do(ops[i]);
        if !ok {
          return;
        }
        assert ops[i..][1..] == ops[i + 1..];
        i := i + 1;
      }
      End(nonl);
      ok := true;
    }
  }

  /** Nothing put at the end of the text is nothing. */
  lemma AtCursor(r: Record)
    requires 0 <= r.pos <= |r.text|
    ensures Put(r, []) == r
  {
    assert Pad(r.text, r.pos) == r.text;
  }

  /** A settled cursor: the text is padded up to it, and nothing else. */
  lemma SettledText(was: Record, now: Record)
    requires was.pos >= 0 && now.pos == was.pos && now.text == Pad(was.text, was.pos)
    ensures now == Put(was, [])
  {}
}
