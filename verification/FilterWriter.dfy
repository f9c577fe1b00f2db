/** Filtering a newline-delimited stream that arrives in arbitrary chunks. */
module FilterWriter {

  /** The first newline, or the length of the text. */
  function LineEnd(s: string): (n: nat)
    ensures n <= |s| && (n < |s| ==> s[n] == '\n')
  {
    if s == "" || s[0] == '\n' then 0 else 1 + LineEnd(s[1..])
  }

  /** The terminated lines of a text, and the unterminated rest. */
  function Lines(s: string): seq<string>
    decreases |s|
  {
    var n := LineEnd(s);
    if n == |s| then [] else [s[..n]] + Lines(s[n + 1..])
  }

  function Tail(s: string): string
    decreases |s|
  {
    var n := LineEnd(s);
    if n == |s| then s else Tail(s[n + 1..])
  }

  /** Filtered lines, each terminated. */
  function Emit(lines: seq<string>, filter: string -> string): string {
    if lines == [] then "" else filter(lines[0]) + "\n" + Emit(lines[1..], filter)
  }

  predicate OneLine(s: string) {
    forall i :: 0 <= i < |s| ==> s[i] != '\n'
  }

  function Same(s: string): string {
    s
  }

  lemma {:induction false} LineEndIsFirst(s: string)
    ensures OneLine(s[..LineEnd(s)])
  {
    if s != "" && s[0] != '\n' {
      LineEndIsFirst(s[1..]);
      assert s[..LineEnd(s)] == [s[0]] + s[1..][..LineEnd(s[1..])];
    }
  }

  /** Lines and tail hold no newline of their own. */
  lemma {:induction false} LinesAreWhole(s: string)
    ensures OneLine(Tail(s)) && forall i :: 0 <= i < |Lines(s)| ==> OneLine(Lines(s)[i])
    decreases |s|
  {
    var n := LineEnd(s);
    LineEndIsFirst(s);
    if n < |s| {
      LinesAreWhole(s[n + 1..]);
    } else {
      assert s[..n] == s;
    }
  }

  lemma CutAtNewline(s: string, n: nat)
    requires n < |s| && s[n] == '\n'
    ensures s == s[..n] + "\n" + s[n + 1..]
  {
  }

  lemma {:induction false} FirstLine(s: string)
    requires LineEnd(s) < |s|
    ensures var n := LineEnd(s);
            Lines(s) == [s[..n]] + Lines(s[n + 1..]) && Tail(s) == Tail(s[n + 1..])
  {
  }

  /** Lines and tail are the text itself, cut at its newlines. */
  lemma {:induction false} LinesAreTheText(s: string)
    ensures Emit(Lines(s), Same) + Tail(s) == s
    decreases |s|
  {
    var n := LineEnd(s);
    if n < |s| {
      var line, rest := s[..n], s[n + 1..];
      LinesAreTheText(rest);
      FirstLine(s);
      CutAtNewline(s, n);
      EmitFirst(line, Lines(rest), Same);
      ConcatAssociates(line + "\n", Emit(Lines(rest), Same), Tail(rest));
    }
  }

  lemma EmitFirst(line: string, lines: seq<string>, filter: string -> string)
    ensures Emit([line] + lines, filter) == filter(line) + "\n" + Emit(lines, filter)
  {
    assert ([line] + lines)[1..] == lines;
  }

  lemma ConcatAssociates(a: string, b: string, c: string)
    ensures a + (b + c) == (a + b) + c
  {
  }

  lemma LineBehindNewline(line: string, rest: string)
    requires OneLine(line)
    ensures Lines(line + "\n" + rest) == [line] + Lines(rest) && Tail(line + "\n" + rest) == Tail(rest)
  {
    var s := line + "\n" + rest;
    NoNewline(line);
    LineEndInPrefix(line, "\n" + rest);
    assert s == line + ("\n" + rest);
    assert LineEnd("\n" + rest) == 0;
    FirstLine(s);
    assert s[..|line|] == line && s[|line| + 1..] == rest;
  }

  /** What comes out, read line by line again, is the filter's text for each of the lines that
      went in, in their order. */
  lemma {:induction false} FilteredLinesComeOut(lines: seq<string>, filter: string -> string)
    requires forall i :: 0 <= i < |lines| ==> OneLine(filter(lines[i]))
    ensures var out := Emit(lines, filter);
            && Tail(out) == "" && |Lines(out)| == |lines|
            && forall i :: 0 <= i < |lines| ==> Lines(out)[i] == filter(lines[i])
  {
    if lines != [] {
      FilteredLinesComeOut(lines[1..], filter);
      LineBehindNewline(filter(lines[0]), Emit(lines[1..], filter));
      var behind := Lines(Emit(lines[1..], filter));
      forall i | 0 < i < |lines| ensures ([filter(lines[0])] + behind)[i] == filter(lines[i]) {
        assert lines[1..][i - 1] == lines[i];
      }
    }
  }

  // ----- Chunks --------------------------------------------------------------------------

  lemma {:induction false} LineEndInPrefix(s: string, t: string)
    ensures LineEnd(s + t) == if LineEnd(s) < |s| then LineEnd(s) else |s| + LineEnd(t)
  {
    if s == "" {
      assert s + t == t;
    } else if s[0] != '\n' {
      LineEndInPrefix(s[1..], t);
      assert (s + t)[1..] == s[1..] + t;
    }
  }

  lemma SlicesOfPrefix(s: string, t: string, n: nat)
    requires n < |s|
    ensures (s + t)[..n] == s[..n] && (s + t)[n + 1..] == s[n + 1..] + t
  {
  }

  /** Text behind a text with a newline leaves its first line. */
  lemma FirstLineStands(s: string, t: string)
    requires LineEnd(s) < |s|
    ensures var line, rest := s[..LineEnd(s)], s[LineEnd(s) + 1..];
            Lines(s + t) == [line] + Lines(rest + t) && Tail(s + t) == Tail(rest + t)
  {
    var n := LineEnd(s);
    LineEndInPrefix(s, t);
    SlicesOfPrefix(s, t, n);
    FirstLine(s + t);
  }

  lemma PrependAssociates(line: string, a: seq<string>, b: seq<string>)
    ensures [line] + (a + b) == ([line] + a) + b
  {
  }

  lemma {:induction false} TailContinues(s: string, t: string)
    ensures Tail(s + t) == Tail(Tail(s) + t)
    decreases |s|
  {
    if LineEnd(s) < |s| {
      FirstLineStands(s, t);
      FirstLine(s);
      TailContinues(s[LineEnd(s) + 1..], t);
    }
  }

  lemma {:induction false} LinesContinue(s: string, t: string)
    ensures Lines(s + t) == Lines(s) + Lines(Tail(s) + t)
    decreases |s|
  {
    if LineEnd(s) < |s| {
      var line, rest := s[..LineEnd(s)], s[LineEnd(s) + 1..];
      FirstLineStands(s, t);
      FirstLine(s);
      LinesContinue(rest, t);
      PrependAssociates(line, Lines(rest), Lines(Tail(rest) + t));
    } else {
      assert Lines(s) == [] && Tail(s) == s;
    }
  }

  lemma {:induction false} EmitAppends(a: seq<string>, b: seq<string>, filter: string -> string)
    ensures Emit(a + b, filter) == Emit(a, filter) + Emit(b, filter)
    decreases |a|
  {
    if a == [] {
      assert a + b == b;
    } else {
      EmitAppends(a[1..], b, filter);
      EmitFirst(a[0], a[1..], filter);
      EmitFirst(a[0], a[1..] + b, filter);
      assert [a[0]] + a[1..] == a && [a[0]] + (a[1..] + b) == a + b;
      ConcatAssociates(filter(a[0]) + "\n", Emit(a[1..], filter), Emit(b, filter));
    }
  }

  function Joined(chunks: seq<string>): string {
    if chunks == [] then "" else chunks[0] + Joined(chunks[1..])
  }

  /** What reaches the output over a run of writes, starting with some pending text. */
  function WrittenInTurn(pending: string, chunks: seq<string>, filter: string -> string): string
    decreases |chunks|
  {
    if chunks == [] then ""
    else Emit(Lines(pending + chunks[0]), filter) + WrittenInTurn(Tail(pending + chunks[0]), chunks[1..], filter)
  }

  function PendingAfter(pending: string, chunks: seq<string>): string
    decreases |chunks|
  {
    if chunks == [] then pending else PendingAfter(Tail(pending + chunks[0]), chunks[1..])
  }

  lemma TailIsStable(s: string)
    requires OneLine(s)
    ensures Lines(s) == [] && Tail(s) == s
  {
    NoNewline(s);
  }

  lemma {:induction false} NoNewline(s: string)
    requires OneLine(s)
    ensures LineEnd(s) == |s|
  {
    if s != "" {
      NoNewline(s[1..]);
    }
  }

  /** However a stream is cut into writes, the output is its complete lines, filtered, in
      order, and what is pending is exactly its unterminated tail. */
  lemma {:induction false} ChunksDoNotMatter(pending: string, chunks: seq<string>, filter: string -> string)
    requires OneLine(pending)
    ensures WrittenInTurn(pending, chunks, filter) == Emit(Lines(pending + Joined(chunks)), filter)
    ensures PendingAfter(pending, chunks) == Tail(pending + Joined(chunks))
    decreases |chunks|
  {
    if chunks == [] {
      assert pending + "" == pending;
      TailIsStable(pending);
    } else {
      var s, rest := pending + chunks[0], Joined(chunks[1..]);
      assert pending + Joined(chunks) == s + rest;
      LinesAreWhole(s);
      ChunksDoNotMatter(Tail(s), chunks[1..], filter);
      LinesContinue(s, rest);
      TailContinues(s, rest);
      EmitAppends(Lines(s), Lines(Tail(s) + rest), filter);
    }
  }

  // ----- The writer ----------------------------------------------------------------------

  /** How one write to the output turns out: some bytes are taken, and it may fail. */
  datatype Turn = Turn(taken: nat, fails: bool)

  /** Every write makes progress and none fails. */
  predicate Steady(turns: seq<Turn>) {
    forall i :: 0 <= i < |turns| ==> !turns[i].fails && turns[i].taken > 0
  }

  class Output {
    var received: string
    /** What will become of the coming writes; later ones take everything. */
    var turns: seq<Turn>

    constructor (turns: seq<Turn>)
      ensures received == "" && this.turns == turns
    {
      received, this.turns := "", turns;
    }

    method Write(payload: string) returns (written: nat, failed: bool)
      modifies this
      ensures written <= |payload| && received == old(received) + payload[..written]
      ensures old(turns) == [] ==> written == |payload| && !failed && turns == []
      ensures old(turns) != [] ==> turns == old(turns)[1..] && failed == old(turns)[0].fails
                                   && (written == 0 <==> payload == "" || old(turns)[0].taken == 0)
    {
      written, failed := |payload|, false;
      if turns != [] {
        var turn := turns[0];
        written, failed := if turn.taken < |payload| then turn.taken else |payload|, turn.fails;
        turns := turns[1..];
      }
      received := received + payload[..written];
    }
  }

  /** Writes the whole payload, in as many writes as it takes, unless one fails or takes
      nothing. */
  method WriteAll(out: Output, payload: string) returns (ok: bool, ghost sent: nat)
    modifies out
    ensures sent <= |payload| && out.received == old(out.received) + payload[..sent]
    ensures ok ==> sent == |payload|
    ensures Steady(old(out.turns)) ==> ok && Steady(out.turns)
  {
    var rest := payload;
    sent := 0;
    while |rest| > 0
      invariant sent <= |payload| && rest == payload[sent..]
      invariant out.received == old(out.received) + payload[..sent]
      invariant Steady(old(out.turns)) ==> Steady(out.turns)
      decreases |rest|
    {
      var written, failed := out.Write(rest);
      assert payload[..sent + written] == payload[..sent] + rest[..written];
      rest := rest[written..];
      sent := sent + written;
      if failed {
        return false, sent;
      }
      if written == 0 {
        return false, sent;
      }
    }
    ok := true;
  }

  /** The first `done` lines of a text are out, the rest of it is pending. */
  ghost predicate Emitted(all: string, filter: string -> string, start: string, received: string, pending: string, done: nat) {
    && done <= |Lines(all)| && Lines(pending) == Lines(all)[done..] && Tail(pending) == Tail(all)
    && received == start + Emit(Lines(all)[..done], filter)
  }

  lemma OneMoreLine(all: string, filter: string -> string, start: string, received: string, pending: string, done: nat)
    requires Emitted(all, filter, start, received, pending, done) && LineEnd(pending) < |pending|
    ensures var n, lines := LineEnd(pending), Lines(all);
            && done < |lines| && lines[done] == pending[..n]
            && Lines(pending[n + 1..]) == lines[done + 1..] && Tail(pending[n + 1..]) == Tail(all)
            && Emitted(all, filter, start, received + (filter(pending[..n]) + "\n"), pending[n + 1..], done + 1)
  {
    var lines, n := Lines(all), LineEnd(pending);
    FirstLine(pending);
    assert Lines(pending)[1..] == Lines(pending[n + 1..]);
    assert lines[done] == lines[done..][0] && lines[done + 1..] == lines[done..][1..];
    EmitLast(lines, done, filter);
    Regrouped(start, Emit(lines[..done], filter), filter(lines[done]) + "\n");
  }

  lemma Regrouped(s: string, t: string, u: string)
    ensures s + (t + u) == s + t + u
  {
  }

  lemma EmitLast(lines: seq<string>, k: nat, filter: string -> string)
    requires k < |lines|
    ensures Emit(lines[..k + 1], filter) == Emit(lines[..k], filter) + (filter(lines[k]) + "\n")
  {
    assert lines[..k + 1] == lines[..k] + [lines[k]];
    EmitAppends(lines[..k], [lines[k]], filter);
    assert Emit([lines[k]], filter) == filter(lines[k]) + "\n" + "";
  }

  /** All complete lines are out, the unterminated rest is pending. */
  ghost predicate Finished(all: string, filter: string -> string, start: string, received: string, pending: string) {
    received == start + Emit(Lines(all), filter) && pending == Tail(all)
  }

  /** An error struck the line behind the first `done`: part of it is out, the rest of it is
      lost, and the lines behind it are pending. */
  ghost predicate Struck(all: string, filter: string -> string, start: string, received: string, pending: string, done: nat, part: string) {
    && done < |Lines(all)| && part <= filter(Lines(all)[done]) + "\n"
    && received == start + Emit(Lines(all)[..done], filter) + part
    && Lines(pending) == Lines(all)[done + 1..] && Tail(pending) == Tail(all)
  }

  lemma NoLineLeft(all: string, filter: string -> string, start: string, received: string, pending: string, done: nat)
    requires Emitted(all, filter, start, received, pending, done) && LineEnd(pending) == |pending|
    ensures Finished(all, filter, start, received, pending)
  {
    assert Lines(pending) == [] && Lines(all)[..done] == Lines(all);
  }

  class ToolListFilterWriter {
    const out: Output
    const filter: string -> string
    var pending: string

    constructor (out: Output, filter: string -> string)
      ensures this.out == out && this.filter == filter && pending == ""
    {
      this.out, this.filter, pending := out, filter, "";
    }

    /** Takes the first pending line out and writes it. */
    method EmitLine(ghost all: string, ghost start: string, ghost done: nat) returns (ok: bool, ghost part: string)
      requires Emitted(all, filter, start, out.received, pending, done) && LineEnd(pending) < |pending|
      modifies this`pending, out
      ensures |pending| < |old(pending)|
      ensures ok ==> Emitted(all, filter, start, out.received, pending, done + 1)
      ensures !ok ==> Struck(all, filter, start, out.received, pending, done, part)
      ensures Steady(old(out.turns)) ==> ok && Steady(out.turns)
    {
      var lineEnd := LineEnd(pending);
      OneMoreLine(all, filter, start, out.received, pending, done);
      var line := filter(pending[..lineEnd]) + "\n";
      pending := pending[lineEnd + 1..];
      ghost var n;
      ok, n := WriteAll(out, line);
      part := line[..n];
      assert ok ==> part == line;
    }

    /** Buffers partial lines and emits complete ones. */
    method Write(p: string) returns (count: nat, ok: bool, ghost done: nat, ghost part: string)
      modifies this`pending, out
      ensures count == |p|
      ensures Steady(old(out.turns)) ==> ok && Steady(out.turns)
      ensures ok ==> Finished(old(pending) + p, filter, old(out.received), out.received, pending)
      ensures !ok ==> Struck(old(pending) + p, filter, old(out.received), out.received, pending, done, part)
    {
      ghost var all, start := pending + p, out.received;
      pending := pending + p;
      count, ok, done, part := |p|, true, 0, "";
      assert Emitted(all, filter, start, out.received, pending, done);
      while LineEnd(pending) < |pending|
        invariant Emitted(all, filter, start, out.received, pending, done)
        invariant Steady(old(out.turns)) ==> Steady(out.turns)
        decreases |pending|
      {
        ok, part := EmitLine(all, start, done);
        if !ok {
          return;
        }
        done := done + 1;
      }
      NoLineLeft(all, filter, start, out.received, pending, done);
    }
  }
}
