/** One outbound ERP call: retried attempts, and who closes which response. */
module ConnectorRetry {
  import opened Common

  const MAX_ATTEMPTS := 3

  /** A response holds its connection until its body is closed. */
  class Response {
    const status: int
    var closed: nat

    constructor (status: int)
      ensures this.status == status && closed == 0
    {
      this.status, closed := status, 0;
    }

    method Close()
      modifies this
      ensures closed == old(closed) + 1
    {
      closed := closed + 1;
    }
  }

  /** How an attempt may go: the request cannot be built, no response arrives, or one does. */
  datatype Attempt = Unbuildable | NoAnswer | Answer(status: int)

  predicate Transient(status: int) {
    status == 429 || status >= 500
  }

  /** The white space of Unicode. */
  predicate IsSpace(c: char) {
    || '\t' <= c <= '\r' || c == ' ' || c in {'\U{85}', '\U{A0}', '\U{1680}', '\U{202F}', '\U{205F}', '\U{3000}'}
    || '\U{2000}' <= c <= '\U{200A}' || '\U{2028}' <= c <= '\U{2029}'
  }

  function Trimmed(s: string): string
    decreases |s|
  {
    if s == "" then ""
    else if IsSpace(s[0]) then Trimmed(s[1..])
    else if IsSpace(s[|s| - 1]) then Trimmed(s[..|s| - 1])
    else s
  }

  /** Capitals, as far as they are letters of ASCII: two letters beyond it have such one, too. */
  function Upper(c: char): char {
    if 'a' <= c <= 'z' then (c as int - 32) as char
    else if c == '\U{131}' then 'I'
    else if c == '\U{17F}' then 'S'
    else c
  }

  function UpperCase(s: string): string {
    if s == "" then "" else [Upper(s[0])] + UpperCase(s[1..])
  }

  predicate RetrySafe(httpMethod: string) {
    UpperCase(Trimmed(httpMethod)) in {"GET", "HEAD", "OPTIONS"}
  }

  function AttemptLimit(httpMethod: string): nat {
    if RetrySafe(httpMethod) then MAX_ATTEMPTS else 1
  }

  /** An attempt that another may follow. */
  predicate Retryable(a: Attempt) {
    a.NoAnswer? || (a.Answer? && Transient(a.status))
  }

  /** How many attempts are made: up to the limit, to the first one that settles the call, or
      until the caller gives up while waiting for the next. */
  function AttemptsMade(script: seq<Attempt>, gaveUp: seq<bool>, n: nat): (m: nat)
    requires n < |script| == |gaveUp|
    ensures n < m <= |script|
    decreases |script| - n
  {
    if Retryable(script[n]) && !gaveUp[n] && n + 1 < |script| then AttemptsMade(script, gaveUp, n + 1) else n + 1
  }

  /** The statuses of the responses among some attempts. */
  function Statuses(attempts: seq<Attempt>): seq<int> {
    if attempts == [] then []
    else
      var last := attempts[|attempts| - 1];
      Statuses(attempts[..|attempts| - 1]) + if last.Answer? then [last.status] else []
  }

  /** The call goes well with a response that is not transient, or, if asked for, with the
      last transient one. */
  predicate Answered(attempts: seq<Attempt>, preserve: bool)
    requires attempts != []
  {
    var last := attempts[|attempts| - 1];
    (last.Answer? && !Transient(last.status)) || (preserve && Statuses(attempts) != [])
  }

  ghost predicate Distinct(rs: seq<Response>) {
    forall i, j :: 0 <= i < j < |rs| ==> rs[i] != rs[j]
  }

  /** All responses but the last are closed, once each. */
  ghost predicate OnlyLastOpen(rs: seq<Response>)
    reads rs
  {
    && Distinct(rs)
    && (forall i :: 0 <= i < |rs| - 1 ==> rs[i].closed == 1)
    && (rs != [] ==> rs[|rs| - 1].closed == 0)
  }

  ghost predicate Carry(rs: seq<Response>, statuses: seq<int>)
  {
    |rs| == |statuses| && forall i :: 0 <= i < |rs| ==> rs[i].status == statuses[i]
  }

  lemma StatusesGrow(script: seq<Attempt>, n: nat)
    requires n < |script|
    ensures Statuses(script[..n + 1]) ==
            Statuses(script[..n]) + if script[n].Answer? then [script[n].status] else []
  {
    assert script[..n + 1][..n] == script[..n];
  }

  lemma CarryOneMore(rs: seq<Response>, r: Response, statuses: seq<int>, status: int)
    requires Carry(rs, statuses) && r.status == status
    ensures Carry(rs + [r], statuses + [status])
  {
  }

  /** A further response: the one kept so far is closed. */
  method Receive(status: int, pending: Response?, ghost obtained: seq<Response>) returns (resp: Response)
    requires OnlyLastOpen(obtained) && (pending != null <==> obtained != [])
    requires pending != null ==> pending == obtained[|obtained| - 1]
    modifies pending
    ensures fresh(resp) && resp.status == status
    ensures OnlyLastOpen(obtained + [resp])
  {
    resp := new Response(status);
    if pending != null {
      pending.Close();
    }
  }

  /** The attempts.  At the end at most one response is open: the last one obtained. */
  method RunAttempts(script: seq<Attempt>, gaveUp: seq<bool>)
    returns (last: Response?, pending: Response?, made: nat, ghost obtained: seq<Response>)
    requires 0 < |script| == |gaveUp|
    ensures made == AttemptsMade(script, gaveUp, 0)
    ensures Carry(obtained, Statuses(script[..made])) && OnlyLastOpen(obtained)
    ensures forall r :: r in obtained ==> fresh(r)
    ensures last != null <==> script[made - 1].Answer? && !Transient(script[made - 1].status)
    ensures last != null ==> pending == null && obtained != [] && last == obtained[|obtained| - 1]
    ensures last == null ==> (pending != null <==> obtained != [])
    ensures pending != null ==> pending == obtained[|obtained| - 1]
  {
    last, pending, obtained := null, null, [];
    made := 0;
    while true
      invariant made < |script|
      invariant AttemptsMade(script, gaveUp, 0) == AttemptsMade(script, gaveUp, made)
      invariant Carry(obtained, Statuses(script[..made])) && OnlyLastOpen(obtained)
      invariant forall r :: r in obtained ==> fresh(r)
      invariant last == null
      invariant pending != null <==> obtained != []
      invariant pending != null ==> pending == obtained[|obtained| - 1]
      decreases |script| - made
    {
      var attempt := script[made];
      StatusesGrow(script, made);
      made := made + 1;
      if attempt.Answer? {
        assert pending != null ==> pending in obtained;
        var resp := Receive(attempt.status, pending, obtained);
        CarryOneMore(obtained, resp, Statuses(script[..made - 1]), attempt.status);
        obtained := obtained + [resp];
        if !Transient(attempt.status) {
          pending := null;
          last := resp;
          return;
        }
        pending := resp;
      }
      if attempt.Unbuildable? || made == |script| || gaveUp[made - 1] {
        return;
      }
    }
  }

  /** The call.  `script` says what would come of each permitted attempt, `gaveUp` whether the
      deadline passes in the pause after it, and `open` whether the circuit breaker refuses. */
  method Call(httpMethod: string, script: seq<Attempt>, gaveUp: seq<bool>, preserve: bool, open: bool)
    returns (res: Response?, made: nat, ghost obtained: seq<Response>)
    requires |script| == |gaveUp| == AttemptLimit(httpMethod)
    ensures made == if open then 0 else AttemptsMade(script, gaveUp, 0)
    ensures made <= AttemptLimit(httpMethod)
    ensures Carry(obtained, Statuses(script[..made])) && Distinct(obtained)
    ensures forall i :: 0 <= i < |obtained| ==> obtained[i].closed == if obtained[i] == res then 0 else 1
    ensures res != null ==> obtained != [] && res == obtained[|obtained| - 1]
    ensures res != null <==> !open && Answered(script[..made], preserve)
  {
    obtained := [];
    if open {
      return null, 0, [];
    }
    var last, pending;
    last, pending, made, obtained := RunAttempts(script, gaveUp);
    if last == null && preserve && pending != null {
      return pending, made, obtained;
    }
    if pending != null {
      assert pending in obtained;
      pending.Close();
    }
    res := last;
  }

  // ----- Consequences --------------------------------------------------------------------

  /** A method that may have effects is sent at most once; the others at most three times,
      again only after an answer that was transient or missing. */
  lemma {:induction false} RetriesAreCautious(script: seq<Attempt>, gaveUp: seq<bool>, n: nat, i: nat)
    requires n <= i < |script| == |gaveUp| && i + 1 < AttemptsMade(script, gaveUp, n)
    ensures Retryable(script[i]) && !gaveUp[i]
    decreases i - n
  {
    if n < i {
      RetriesAreCautious(script, gaveUp, n + 1, i);
    }
  }

  /** A transient response reaches only callers that asked for it. */
  lemma TransientOnlyIfAsked(script: seq<Attempt>, gaveUp: seq<bool>, preserve: bool)
    requires 0 < |script| == |gaveUp|
    ensures var made := AttemptsMade(script, gaveUp, 0);
            var statuses := Statuses(script[..made]);
            Answered(script[..made], preserve) && statuses != [] && Transient(statuses[|statuses| - 1]) ==> preserve
  {
    var made := AttemptsMade(script, gaveUp, 0);
    StatusesGrow(script, made - 1);
  }

  predicate AllSpace(s: string) {
    forall i :: 0 <= i < |s| ==> IsSpace(s[i])
  }

  lemma {:induction false} TrimmedIs(before: string, word: string, behind: string)
    requires AllSpace(before) && AllSpace(behind)
    requires word != "" && !IsSpace(word[0]) && !IsSpace(word[|word| - 1])
    ensures Trimmed(before + word + behind) == word
    decreases |before| + |behind|
  {
    var s := before + word + behind;
    if before != "" {
      assert s[1..] == before[1..] + word + behind;
      TrimmedIs(before[1..], word, behind);
    } else if behind != "" {
      assert s[..|s| - 1] == before + word + behind[..|behind| - 1] && s[0] == word[0];
      TrimmedIs(before, word, behind[..|behind| - 1]);
    } else {
      assert s == word;
    }
  }

  /** A character that counts as a capital letter: itself, its small form, or one of the two
      letters beyond ASCII that share a capital with one of it. */
  predicate SameLetter(c: char, capital: char) {
    c == capital || c as int == capital as int + 32 || (capital == 'I' && c == '\U{131}') || (capital == 'S' && c == '\U{17F}')
  }

  /** Letter for letter the word, in capitals or not. */
  predicate Reads(s: string, word: string) {
    |s| == |word| && forall i :: 0 <= i < |s| ==> SameLetter(s[i], word[i])
  }

  predicate Capitals(s: string) {
    forall i :: 0 <= i < |s| ==> 'A' <= s[i] <= 'Z'
  }

  lemma {:induction false} UpperCaseReads(s: string, word: string)
    requires Capitals(word)
    ensures UpperCase(s) == word <==> Reads(s, word)
  {
    if s != "" && word != "" {
      UpperCaseReads(s[1..], word[1..]);
      UpperIsLetter(s[0], word[0]);
      assert UpperCase(s) == [Upper(s[0])] + UpperCase(s[1..]) && word == [word[0]] + word[1..];
    }
  }

  lemma UpperIsLetter(c: char, capital: char)
    requires 'A' <= capital <= 'Z'
    ensures Upper(c) == capital <==> SameLetter(c, capital)
  {
  }

  const WHITE_SPACE := {
    '\U{9}', '\U{A}', '\U{B}', '\U{C}', '\U{D}', '\U{20}', '\U{85}', '\U{A0}', '\U{1680}', '\U{2000}', '\U{2001}', '\U{2002}',
    '\U{2003}', '\U{2004}', '\U{2005}', '\U{2006}', '\U{2007}', '\U{2008}', '\U{2009}', '\U{200A}', '\U{2028}', '\U{2029}',
    '\U{202F}', '\U{205F}', '\U{3000}'}

  lemma IsSpaceExactly(c: char)
    ensures IsSpace(c) <==> c in WHITE_SPACE
  {
  }

  /** Only GET, HEAD and OPTIONS, in whatever letters and space around them, are attempted more
      than once, at most three times. */
  lemma OnlyReadsAreRepeated(before: string, word: string, behind: string)
    requires AllSpace(before) && AllSpace(behind)
    requires word != "" && !IsSpace(word[0]) && !IsSpace(word[|word| - 1])
    ensures AttemptLimit(before + word + behind) == if Reads(word, "GET") || Reads(word, "HEAD") || Reads(word, "OPTIONS") then 3 else 1
  {
    TrimmedIs(before, word, behind);
    UpperCaseReads(word, "GET");
    UpperCaseReads(word, "HEAD");
    UpperCaseReads(word, "OPTIONS");
  }

  /** So a method that may have effects is sent once. */
  lemma EffectsAreSentOnce(httpMethod: string)
    requires httpMethod in {"POST", "PUT", "PATCH", "DELETE"}
    ensures AttemptLimit(httpMethod) == 1
  {
    assert "" + httpMethod + "" == httpMethod;
    assert httpMethod[0] in "PD" && httpMethod[|httpMethod| - 1] in "TEH";
    OnlyReadsAreRepeated("", httpMethod, "");
  }

  /** A missing answer, 429 or 5xx may be followed by another attempt; anything else settles the
      call. */
  predicate Unsettled(a: Attempt) {
    a.NoAnswer? || (a.Answer? && (a.status == 429 || 500 <= a.status))
  }

  /** Attempts are made exactly until one settles the call, the caller gives up or none is left. */
  lemma {:induction false} AttemptsEndExactly(script: seq<Attempt>, gaveUp: seq<bool>, n: nat, i: nat)
    requires n <= i < |script| == |gaveUp|
    ensures i + 1 < AttemptsMade(script, gaveUp, n) <==>
            i + 1 < |script| && forall j :: n <= j <= i ==> Unsettled(script[j]) && !gaveUp[j]
    decreases i - n
  {
    if n < i && n + 1 < |script| {
      AttemptsEndExactly(script, gaveUp, n + 1, i);
    }
  }

  lemma {:induction false} StatusesAre(attempts: seq<Attempt>)
    ensures Statuses(attempts) != [] <==> exists i :: 0 <= i < |attempts| && attempts[i].Answer?
  {
    if attempts != [] {
      var front := attempts[..|attempts| - 1];
      StatusesAre(front);
      if i :| 0 <= i < |attempts| && attempts[i].Answer? {
        assert i < |front| ==> front[i].Answer?;
      }
      if i :| 0 <= i < |front| && front[i].Answer? {
        assert attempts[i].Answer?;
      }
    }
  }

  /** The call goes well exactly if the last attempt was answered for good or, for a caller that
      takes transient answers, if any attempt was answered. */
  lemma AnsweredExactly(attempts: seq<Attempt>, preserve: bool)
    requires attempts != []
    ensures var last := attempts[|attempts| - 1];
            Answered(attempts, preserve) <==>
            (last.Answer? && !Unsettled(last)) || (preserve && exists i :: 0 <= i < |attempts| && attempts[i].Answer?)
  {
    StatusesAre(attempts);
  }
}
