/** The line assembler of `ClientSessionBase.data_received`
    (client_sessions.py:34-54, repeated at mroute_client_session.py:44-66):
    it keeps the text of an unfinished line in `buffer` across chunks, cuts
    each chunk at CRLF pairs and hands every completed line on. */
module LineAssembly {
  import opened Strings

  /** A CR at index `j` of `s` followed by an LF. */
  predicate CrlfAt(s: string, j: int)
  {
    0 <= j && j + 1 < |s| && s[j] == CR && s[j + 1] == LF
  }

  predicate NoCrlf(s: string)
  {
    forall j :: 0 <= j < |s| ==> !CrlfAt(s, j)
  }

  /** `s.find("\r\n")`: the index of the first CRLF, or -1. */
  function FindCrlf(s: string): (r: int)
    ensures -1 <= r < |s|
    ensures r >= 0 ==> CrlfAt(s, r) && forall j :: 0 <= j < r ==> !CrlfAt(s, j)
    ensures r == -1 <==> NoCrlf(s)
    decreases |s|
  {
    if |s| < 2 then -1
    else if s[0] == CR && s[1] == LF then 0
    else
      var k := FindCrlf(s[1..]);
      assert forall j :: 1 <= j < |s| ==> (CrlfAt(s, j) <==> CrlfAt(s[1..], j - 1));
      if k < 0 then -1 else k + 1
  }

  /** The character-level search above is Python's `find` and `in` for the
      two-character needle CRLF. */
  lemma FindCrlfIsFind(s: string)
    ensures FindCrlf(s) == Find(s, CRLF)
    ensures NoCrlf(s) <==> !Contains(s, CRLF)
  {
    forall j | 0 <= j
      ensures OccursAt(s, j, CRLF) <==> CrlfAt(s, j)
    {
      if j + 1 < |s| {
        assert s[j..j + 2] == [s[j], s[j + 1]];
      }
    }
  }

  /** The pieces of `data` that are each followed by a CRLF, in order, and the
      tail after the last CRLF: what repeatedly cutting at `data.find("\r\n")`
      yields. */
  function Cut(data: string): (r: (seq<string>, string))
    decreases |data|
  {
    var k := FindCrlf(data);
    if k < 0 then ([], data)
    else
      var rest := Cut(data[k + 2..]);
      ([data[..k]] + rest.0, rest.1)
  }

  /** Every piece followed by a CRLF, concatenated. */
  function Join(pieces: seq<string>): string
  {
    if pieces == [] then "" else pieces[0] + CRLF + Join(pieces[1..])
  }

  /** The lines handed on for the cut pieces: the first piece completes the
      buffered text, later ones stand alone. */
  function Glue(buffer: string, pieces: seq<string>): (lines: seq<string>)
    ensures |lines| == |pieces|
  {
    if pieces == [] then [] else [buffer + pieces[0]] + pieces[1..]
  }

  /** One call of `data_received`: the lines passed to `process_line`, in
      order, and the new buffer. A chunk holding ESC is dropped whole; a `>`
      in the tail means a prompt, which discards the partial line. */
  function Assemble(buffer: string, data: string): (r: (seq<string>, string))
  {
    if ESC in data then ([], buffer)
    else
      var (pieces, tail) := Cut(data);
      var lines := Glue(buffer, pieces);
      if '>' in tail then (lines, "")
      else if pieces == [] then (lines, buffer + tail)
      else (lines, tail)
  }

  /** Number of CRLF pairs in `s`, counted left to right. */
  function CountCrlf(s: string): nat
    decreases |s|
  {
    if |s| < 2 then 0
    else if s[0] == CR && s[1] == LF then 1 + CountCrlf(s[2..])
    else CountCrlf(s[1..])
  }

  /** Cutting loses nothing: the pieces, each followed by CRLF, and then the
      tail, give back the chunk. */
  lemma {:induction false} CutRoundTrip(data: string)
    ensures Join(Cut(data).0) + Cut(data).1 == data
    decreases |data|
  {
    var k := FindCrlf(data);
    if k >= 0 {
      var piece := data[..k];
      var rest := Cut(data[k + 2..]);
      FirstPiece(data);
      CutRoundTrip(data[k + 2..]);
      assert Cut(data) == ([piece] + rest.0, rest.1);
      JoinCons(piece, rest.0);
      calc {
        Join([piece] + rest.0) + rest.1;
        (piece + CRLF + Join(rest.0)) + rest.1;
        piece + CRLF + (Join(rest.0) + rest.1);
        piece + CRLF + data[k + 2..];
      }
    }
  }

  lemma JoinCons(p: string, ps: seq<string>)
    ensures Join([p] + ps) == p + CRLF + Join(ps)
  {
    assert ([p] + ps)[0] == p;
    assert ([p] + ps)[1..] == ps;
  }

  /** No piece and no tail holds a CRLF. */
  lemma {:induction false} CutPiecesHaveNoCrlf(data: string)
    ensures forall i :: 0 <= i < |Cut(data).0| ==> NoCrlf(Cut(data).0[i])
    ensures NoCrlf(Cut(data).1)
    decreases |data|
  {
    var k := FindCrlf(data);
    if k >= 0 {
      CutPiecesHaveNoCrlf(data[k + 2..]);
      assert forall j :: 0 <= j < k ==> (CrlfAt(data[..k], j) ==> CrlfAt(data, j));
    }
  }

  /** A CRLF-free piece followed by CRLF has its first CRLF right after it. */
  lemma FirstCrlfAfterPiece(p: string, rest: string)
    requires NoCrlf(p)
    ensures FindCrlf(p + CRLF + rest) == |p|
  {
    var s := p + CRLF + rest;
    assert CrlfAt(s, |p|);
    forall j | 0 <= j < |p|
      ensures !CrlfAt(s, j)
    {
      if j + 1 < |p| {
        assert !CrlfAt(p, j);
      } else {
        assert s[j + 1] == CR;
      }
    }
  }

  /** Cutting is the only way to split a chunk into CRLF-free pieces and a
      CRLF-free tail: with CutRoundTrip and CutPiecesHaveNoCrlf, a
      decomposition holds exactly when Cut returns it. */
  lemma {:induction false} CutUnique(pieces: seq<string>, tail: string)
    requires forall i :: 0 <= i < |pieces| ==> NoCrlf(pieces[i])
    requires NoCrlf(tail)
    ensures Cut(Join(pieces) + tail) == (pieces, tail)
    decreases |pieces|
  {
    var s := Join(pieces) + tail;
    if pieces == [] {
      assert s == tail;
    } else {
      var p := pieces[0];
      var more := Join(pieces[1..]) + tail;
      assert s == p + CRLF + more;
      FirstCrlfAfterPiece(p, more);
      assert s[|p| + 2..] == more;
      assert s[..|p|] == p;
      CutUnique(pieces[1..], tail);
      assert [p] + pieces[1..] == pieces;
    }
  }

  /** A prefix free of CRLF does not change the count. */
  lemma {:induction false} CountSkipsClean(s: string, k: nat)
    requires k <= |s|
    requires forall j :: 0 <= j < k ==> !CrlfAt(s, j)
    ensures CountCrlf(s) == CountCrlf(s[k..])
    decreases k
  {
    if k > 0 {
      if |s| >= 2 {
        assert !CrlfAt(s, 0);
        assert forall j :: 0 <= j < k - 1 ==> !CrlfAt(s[1..], j) by {
          forall j | 0 <= j < k - 1 ensures !CrlfAt(s[1..], j) {
            assert !CrlfAt(s, j + 1);
          }
        }
        CountSkipsClean(s[1..], k - 1);
        assert s[1..][k - 1..] == s[k..];
      } else {
        assert |s[k..]| < 2;
      }
    }
  }

  /** Every CRLF in the chunk ends exactly one piece. */
  lemma {:induction false} CutCountsCrlf(data: string)
    ensures |Cut(data).0| == CountCrlf(data)
    decreases |data|
  {
    var k := FindCrlf(data);
    if k < 0 {
      CountSkipsClean(data, |data|);
    } else {
      CountSkipsClean(data, k);
      var s := data[k..];
      assert s[0] == CR && s[1] == LF;
      assert s[2..] == data[k + 2..];
      CutCountsCrlf(data[k + 2..]);
    }
  }

  /** A chunk with ESC in it hands on no line and leaves the buffer alone
      (client_sessions.py:42-44). */
  lemma EscapeDropsChunk(buffer: string, data: string)
    requires ESC in data
    ensures Assemble(buffer, data) == ([], buffer)
  {
  }

  /** Prefixing the first piece with the buffer prefixes the joined text. */
  lemma JoinGlue(buffer: string, pieces: seq<string>)
    requires pieces != []
    ensures Join(Glue(buffer, pieces)) == buffer + Join(pieces)
  {
    var lines := Glue(buffer, pieces);
    assert lines[0] == buffer + pieces[0] && lines[1..] == pieces[1..];
  }

  /** Without ESC the lines handed on are one per CRLF in the chunk
      (client_sessions.py:45-49). */
  lemma AssembleCountsLines(buffer: string, data: string)
    requires ESC !in data
    ensures |Assemble(buffer, data).0| == CountCrlf(data)
  {
    CutCountsCrlf(data);
  }

  /** Without ESC the first line is the old buffer followed by the text
      before the first CRLF, and every later line is free of CRLF
      (client_sessions.py:46-49). */
  lemma AssembleLineContents(buffer: string, data: string)
    requires ESC !in data
    ensures var lines := Assemble(buffer, data).0;
      (|lines| > 0 ==> FindCrlf(data) >= 0 && lines[0] == buffer + data[..FindCrlf(data)])
      && (forall i :: 1 <= i < |lines| ==> NoCrlf(lines[i]))
  {
    CutPiecesHaveNoCrlf(data);
    var pieces := Cut(data).0;
    assert Assemble(buffer, data).0 == Glue(buffer, pieces);
    if pieces != [] {
      assert Glue(buffer, pieces)[1..] == pieces[1..];
    }
  }

  /** Without ESC and without a prompt in the tail nothing is lost: the
      lines, each followed by CRLF, and then the new buffer, are the old
      buffer followed by the chunk (client_sessions.py:45-54). */
  lemma AssembleKeepsText(buffer: string, data: string)
    requires ESC !in data && '>' !in Cut(data).1
    ensures Join(Assemble(buffer, data).0) + Assemble(buffer, data).1 == buffer + data
  {
    var pieces := Cut(data).0;
    var tail := Cut(data).1;
    var lines := Glue(buffer, pieces);
    assert Assemble(buffer, data) == (lines, if pieces == [] then buffer + tail else tail);
    assert Join(pieces) + tail == data by {
      CutRoundTrip(data);
    }
    if pieces != [] {
      assert Join(lines) == buffer + Join(pieces) by {
        JoinGlue(buffer, pieces);
      }
    } else {
      assert Join(lines) == "";
    }
  }

  /** The new buffer: empty when the tail after the last CRLF holds `>`;
      otherwise the old buffer followed by the chunk when the chunk had no
      CRLF, or the tail alone when it had one (client_sessions.py:51-54).
      The tail itself never holds a CRLF. */
  lemma AssembleBuffer(buffer: string, data: string)
    requires ESC !in data
    ensures var tail := Cut(data).1;
      NoCrlf(tail)
      && Assemble(buffer, data).1 ==
         if '>' in tail then ""
         else if NoCrlf(data) then buffer + data
         else tail
  {
    CutPiecesHaveNoCrlf(data);
  }

  /** A CR that ends one chunk and an LF that starts the next are never
      taken for a line end, since only the new chunk is searched
      (client_sessions.py:45): the new buffer then holds a CRLF. */
  lemma SplitCrlfIsNoLineEnd(buffer: string, data: string)
    requires |buffer| > 0 && buffer[|buffer| - 1] == CR
    requires |data| > 0 && data[0] == LF
    requires ESC !in data && '>' !in data && NoCrlf(data)
    ensures Assemble(buffer, data) == ([], buffer + data)
    ensures !NoCrlf(Assemble(buffer, data).1)
  {
    CutUnique([], data);
    assert CrlfAt(buffer + data, |buffer| - 1);
  }

  /** A `>` inside a completed line is not a prompt: only the tail counts
      (mroute_client_session.py:62-65). A chunk holding a line with `>` and
      a tail without one keeps the tail. */
  lemma PromptOnlyInTail(buffer: string, line: string, tail: string)
    requires NoCrlf(line) && NoCrlf(tail)
    requires ESC !in line && ESC !in tail && '>' in line && '>' !in tail
    ensures Assemble(buffer, line + CRLF + tail) == ([buffer + line], tail)
  {
    var data := line + CRLF + tail;
    CutUnique([line], tail);
    assert Join([line]) == line + CRLF;
    assert data == Join([line]) + tail;
    assert ESC !in data by {
      assert multiset(data) == multiset(line) + multiset(CRLF) + multiset(tail);
    }
    assert Cut(data) == ([line], tail);
    assert Glue(buffer, [line]) == [buffer + line];
  }

  /** The `buffer` field of a session and the loop of `data_received` that
      rebuilds it. */
  class LineAssembler {
    var buffer: string

    constructor ()
      ensures buffer == ""
    {
      buffer := "";
    }

    /** Returns the lines the source passes to `process_line`, in order. */
    method Feed(data: string) returns (lines: seq<string>)
      modifies this
      ensures lines == Assemble(old(buffer), data).0
      ensures buffer == Assemble(old(buffer), data).1
    {
      lines := [];
      if ESC in data {
        return;
      }
      ghost var done: seq<string> := [];
      var rest := data;
      while FindCrlf(rest) >= 0
        invariant data == Join(done) + rest
        invariant forall i :: 0 <= i < |done| ==> NoCrlf(done[i])
        invariant lines == Glue(old(buffer), done)
        invariant buffer == if done == [] then old(buffer) else ""
        decreases |rest|
      {
        var k := FindCrlf(rest);
        ghost var piece := rest[..k];
        CutOneMore(data, done, rest);
        GlueSnoc(old(buffer), done, piece);
        buffer := buffer + rest[..k];
        assert buffer == if done == [] then old(buffer) + piece else piece;
        lines := lines + [buffer];
        buffer := "";
        done := done + [piece];
        rest := rest[k + 2..];
      }
      CutUnique(done, rest);
      if '>' in rest {
        buffer := "";
      } else {
        assert done != [] ==> buffer + rest == rest;
        buffer := buffer + rest;
      }
    }
  }

  /** The text before the first CRLF is free of CRLF, and the chunk is that
      text, the CRLF and the rest. */
  lemma FirstPiece(s: string)
    requires FindCrlf(s) >= 0
    ensures var k := FindCrlf(s);
      NoCrlf(s[..k]) && s == s[..k] + CRLF + s[k + 2..]
  {
    var k := FindCrlf(s);
    assert forall j :: 0 <= j < k ==> (CrlfAt(s[..k], j) ==> CrlfAt(s, j));
    assert s[k..k + 2] == CRLF;
  }

  /** The loop in `Feed` keeps the chunk equal to the joined pieces cut so
      far followed by what is left, each piece free of CRLF. */
  lemma CutOneMore(data: string, done: seq<string>, rest: string)
    requires data == Join(done) + rest
    requires forall i :: 0 <= i < |done| ==> NoCrlf(done[i])
    requires FindCrlf(rest) >= 0
    ensures var k := FindCrlf(rest);
      data == Join(done + [rest[..k]]) + rest[k + 2..]
      && forall i :: 0 <= i < |done + [rest[..k]]| ==> NoCrlf((done + [rest[..k]])[i])
  {
    var k := FindCrlf(rest);
    FirstPiece(rest);
    JoinSnoc(done, rest[..k]);
  }

  /** Joining one more piece appends it and a CRLF. */
  lemma {:induction false} JoinSnoc(pieces: seq<string>, p: string)
    ensures Join(pieces + [p]) == Join(pieces) + p + CRLF
    decreases |pieces|
  {
    if pieces == [] {
      assert [] + [p] == [p];
    } else {
      assert (pieces + [p])[1..] == pieces[1..] + [p];
      JoinSnoc(pieces[1..], p);
    }
  }

  /** Appending a piece appends one line. */
  lemma GlueSnoc(buffer: string, done: seq<string>, p: string)
    ensures Glue(buffer, done + [p]) == Glue(buffer, done) + [if done == [] then buffer + p else p]
  {
    if done != [] {
      assert (done + [p])[1..] == done[1..] + [p];
    }
  }
}
