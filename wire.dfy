/** Newline framing of a connection's byte stream.

    Every peer reads with `read_until(socket, buf, "\n")` followed by
    `getline`, over one stream buffer that lives as long as the connection:
    bytes that arrive after a delimiter stay in the buffer for the next line,
    and a tail without a delimiter is never handed out as a line. */
module Wire {
  import opened Base

  /** No element of `ls` contains the delimiter. */
  predicate Lines(ls: seq<string>) {
    forall i :: 0 <= i < |ls| ==> '\n' !in ls[i]
  }

  /** The bytes of successive reads, in arrival order. */
  function Concat(chunks: seq<string>): string {
    if chunks == [] then "" else chunks[0] + Concat(chunks[1..])
  }

  /** The byte stream that carries `lines`, each followed by its '\n'. */
  function Unframe(lines: seq<string>): string {
    if lines == [] then "" else lines[0] + "\n" + Unframe(lines[1..])
  }

  /** One write per message, each message followed by its '\n'. */
  function Framed(ms: seq<string>): seq<string> {
    if ms == [] then [] else [ms[0] + "\n"] + Framed(ms[1..])
  }

  /** Index of the first '\n' in `s`, or |s| when there is none. */
  function Find(s: string): (k: nat)
    ensures k <= |s| && '\n' !in s[..k]
    ensures k < |s| ==> s[k] == '\n'
    ensures k == |s| ==> '\n' !in s
  {
    if s == [] || s[0] == '\n' then 0
    else
      var k' := Find(s[1..]);
      assert s[..k' + 1] == [s[0]] + s[1..][..k'];
      assert s == [s[0]] + s[1..];
      k' + 1
  }

  /** The complete lines held by `s`, without their delimiters, and the
      unterminated tail that stays buffered (see FrameSplits and
      FrameUnique). */
  function Frame(s: string): (seq<string>, string)
    decreases |s|
  {
    var k := Find(s);
    if k == |s| then ([], s)
    else
      var t := Frame(s[k + 1..]);
      ([s[..k]] + t.0, t.1)
  }

  /** Framing splits a stream into delimiter-free lines and a delimiter-free
      tail that together are the stream again. */
  lemma {:induction false} FrameSplits(s: string)
    ensures Lines(Frame(s).0) && '\n' !in Frame(s).1
    ensures Unframe(Frame(s).0) + Frame(s).1 == s
    decreases |s|
  {
    var k := Find(s);
    if k < |s| {
      var line, t := s[..k], Frame(s[k + 1..]);
      FrameSplits(s[k + 1..]);
      assert Frame(s) == ([line] + t.0, t.1);
      assert ([line] + t.0)[1..] == t.0 && ([line] + t.0)[0] == line;
      SplitAt(s, k);
      AppendAssoc(line + "\n", Unframe(t.0), t.1);
      assert Lines([line]);
      LinesAppend([line], t.0);
    }
  }

  /** A string is the part before position `k`, the delimiter at `k`, and the rest. */
  lemma SplitAt(s: string, k: nat)
    requires k < |s| && s[k] == '\n'
    ensures s == s[..k] + "\n" + s[k + 1..]
  {
    assert s == s[..k] + s[k..];
    assert s[k..] == "\n" + s[k + 1..];
    AppendAssoc(s[..k], "\n", s[k + 1..]);
  }

  lemma {:induction false} ConcatAppend(a: seq<string>, b: seq<string>)
    ensures Concat(a + b) == Concat(a) + Concat(b)
  {
    if a != [] {
      assert (a + b)[1..] == a[1..] + b;
      ConcatAppend(a[1..], b);
      AppendAssoc(a[0], Concat(a[1..]), Concat(b));
    } else {
      assert a + b == b;
    }
  }

  /** Reading `chunks[i..]` is reading `chunks[i..j]` and then `chunks[j..]`. */
  lemma ConcatSplit(chunks: seq<string>, i: nat, j: nat)
    requires i <= j <= |chunks|
    ensures Concat(chunks[i..]) == Concat(chunks[i..j]) + Concat(chunks[j..])
  {
    assert chunks[i..] == chunks[i..j] + chunks[j..];
    ConcatAppend(chunks[i..j], chunks[j..]);
  }

  /** One more read appends its bytes. */
  lemma ConcatSnoc(chunks: seq<string>, i: nat, j: nat)
    requires i <= j < |chunks|
    ensures Concat(chunks[i..j + 1]) == Concat(chunks[i..j]) + chunks[j]
  {
    assert chunks[i..j + 1] == chunks[i..j] + [chunks[j]];
    ConcatAppend(chunks[i..j], [chunks[j]]);
    assert Concat([chunks[j]]) == chunks[j] + Concat([]);
  }

  lemma {:induction false} UnframeAppend(a: seq<string>, b: seq<string>)
    ensures Unframe(a + b) == Unframe(a) + Unframe(b)
  {
    if a != [] {
      assert (a + b)[1..] == a[1..] + b;
      UnframeAppend(a[1..], b);
      AppendAssoc(a[0] + "\n", Unframe(a[1..]), Unframe(b));
    } else {
      assert a + b == b;
    }
  }

  /** Writing the messages one at a time puts exactly their framing on the wire. */
  lemma {:induction false} ConcatFramed(ms: seq<string>)
    ensures Concat(Framed(ms)) == Unframe(ms)
  {
    if ms != [] {
      ConcatFramed(ms[1..]);
      assert Framed(ms)[1..] == Framed(ms[1..]);
    }
  }

  lemma {:induction false} FramedAppend(a: seq<string>, b: seq<string>)
    ensures Framed(a + b) == Framed(a) + Framed(b)
  {
    if a == [] {
      assert a + b == b;
    } else {
      assert (a + b)[1..] == a[1..] + b;
      FramedAppend(a[1..], b);
      AppendAssoc([a[0] + "\n"], Framed(a[1..]), Framed(b));
    }
  }

  lemma {:induction false} FindAfterLine(l: string, rest: string)
    requires '\n' !in l
    ensures Find(l + "\n" + rest) == |l|
  {
    if l != [] {
      assert (l + "\n" + rest)[1..] == l[1..] + "\n" + rest;
      FindAfterLine(l[1..], rest);
    }
  }

  /** Framing is the inverse of unframing: a stream made of delimiter-free
      lines and a delimiter-free tail decodes to exactly those lines and tail. */
  lemma {:induction false} FrameUnique(ls: seq<string>, t: string)
    requires Lines(ls) && '\n' !in t
    ensures Frame(Unframe(ls) + t) == (ls, t)
  {
    var s := Unframe(ls) + t;
    if ls == [] {
      assert s == t;
      var k := Find(s);
      assert k == |s|;
    } else {
      var l := ls[0];
      assert Lines(ls[1..]) by {
        forall i | 0 <= i < |ls[1..]| ensures '\n' !in ls[1..][i] {
          assert ls[1..][i] == ls[i + 1];
        }
      }
      assert '\n' !in l by { assert ls[0] == l; }
      assert s == l + "\n" + (Unframe(ls[1..]) + t);
      FindAfterLine(l, Unframe(ls[1..]) + t);
      assert s[..|l|] == l;
      assert s[|l| + 1..] == Unframe(ls[1..]) + t;
      FrameUnique(ls[1..], t);
      assert [l] + ls[1..] == ls;
    }
  }

  /** Taking one more line off the front of the pending bytes. */
  lemma UnframeStep(ls: seq<string>, l: string, rest: string, more: string)
    ensures Unframe(ls) + (l + "\n" + rest + more) == Unframe(ls + [l]) + (rest + more)
  {
    UnframeAppend(ls, [l]);
    assert Unframe([l]) == l + "\n" by {
      assert [l][1..] == [];
    }
  }

  lemma LinesAppend(a: seq<string>, b: seq<string>)
    requires Lines(a) && Lines(b)
    ensures Lines(a + b)
  {
    forall i | 0 <= i < |a + b| ensures '\n' !in (a + b)[i] {
      if i < |a| { assert (a + b)[i] == a[i]; } else { assert (a + b)[i] == b[i - |a|]; }
    }
  }

  /** A peer that writes delimiter-free messages one per write is read back
      as exactly those lines, with nothing left buffered, however the bytes
      are split between reads. */
  lemma ReadBackFramed(ms: seq<string>)
    requires Lines(ms)
    ensures Frame(Concat(Framed(ms))) == (ms, "")
  {
    ConcatFramed(ms);
    assert Unframe(ms) + "" == Unframe(ms);
    FrameUnique(ms, "");
  }

  /** A stream whose first read fails holds no complete line. */
  lemma NoCompleteLine(chunks: seq<string>)
    requires '\n' !in Concat(chunks)
    ensures Frame(Concat(chunks)) == ([], Concat(chunks))
  {
    assert Unframe([]) + Concat(chunks) == Concat(chunks);
    FrameUnique([], Concat(chunks));
  }

  /** After the first line has been read from a fresh stream buffer, that
      line comes first and `buf` and the remaining reads carry the rest. */
  lemma FirstLineRead(chunks: seq<string>, l: string, i: nat, buf: string)
    requires i <= |chunks|
    requires Concat(chunks) == l + "\n" + buf + Concat(chunks[i..])
    ensures Concat(chunks) == Unframe([l]) + (buf + Concat(chunks[i..]))
  {
    UnframeStep([], l, buf, Concat(chunks[i..]));
  }

  /** Lines already taken from the front of a stream do not change how the
      remainder frames: the persistent buffer carries the same line sequence
      however the bytes were split between reads. */
  lemma FrameAfterLines(ls: seq<string>, s: string)
    requires Lines(ls)
    ensures Frame(Unframe(ls) + s) == (ls + Frame(s).0, Frame(s).1)
  {
    var f := Frame(s);
    var lines, tail := f.0, f.1;
    FrameSplits(s);
    UnframeAppend(ls, lines);
    AppendAssoc(Unframe(ls), Unframe(lines), tail);
    LinesAppend(ls, lines);
    FrameUnique(ls + lines, tail);
  }

  /** `read_until(socket, buf, "\n")`: `buf` is what the stream buffer
      holds, `chunks[i..]` the reads still to come. Reads are taken only
      while the buffer holds no delimiter, and each adds its bytes to the
      buffer; it stops at the first delimiter or when the reads run out. */
  method ReadUntil(chunks: seq<string>, i: nat, buf: string) returns (j: nat, filled: string)
    requires i <= |chunks|
    ensures i <= j <= |chunks|
    ensures filled == buf + Concat(chunks[i..j])
    ensures '\n' in filled || j == |chunks|
    ensures i < j ==> '\n' !in buf + Concat(chunks[i..j - 1])
  {
    j, filled := i, buf;
    while '\n' !in filled && j < |chunks|
      invariant i <= j <= |chunks|
      invariant filled == buf + Concat(chunks[i..j])
      invariant i < j ==> '\n' !in buf + Concat(chunks[i..j - 1])
      decreases |chunks| - j
    {
      ConcatSnoc(chunks, i, j);
      AppendAssoc(buf, Concat(chunks[i..j]), chunks[j]);
      filled := filled + chunks[j];
      j := j + 1;
    }
  }

  /** One `read_until` followed by `getline`: the bytes up to the first '\n'
      are the line and the bytes after it stay in `rest`. When the reads run
      out first, the read fails (`None`): the unterminated bytes are never
      returned as a line. */
  method ReadLine(chunks: seq<string>, i: nat, buf: string)
    returns (line: Option<string>, j: nat, rest: string)
    requires i <= |chunks|
    ensures i <= j <= |chunks|
    ensures line.Some? ==> '\n' !in line.value
    ensures line.Some? ==> buf + Concat(chunks[i..j]) == line.value + "\n" + rest
    ensures line.Some? ==> buf + Concat(chunks[i..]) == line.value + "\n" + rest + Concat(chunks[j..])
    ensures line.Some? && i < j ==> '\n' !in buf + Concat(chunks[i..j - 1])
    ensures line.None? ==> j == |chunks| && '\n' !in buf + Concat(chunks[i..])
  {
    var filled;
    j, filled := ReadUntil(chunks, i, buf);
    ConcatSplit(chunks, i, j);
    AppendAssoc(buf, Concat(chunks[i..j]), Concat(chunks[j..]));
    if '\n' in filled {
      var k := Find(filled);
      SplitAt(filled, k);
      line, rest := Some(filled[..k]), filled[k + 1..];
    } else {
      assert chunks[j..] == [];
      line, rest := None, filled;
    }
  }
}
