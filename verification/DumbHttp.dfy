/** The one-connection-at-a-time HTTP server: it discards a request up to the blank line that ends it,
    with a four-state scanner, then sends a fixed response through short writes. */
module DumbHttp {
  import opened Bytes

  const BLANK_LINE: seq<byte> := [CR, LF, CR, LF]

  /** req_state after one byte; 4 stands for the break out of the loop. */
  function Scan(q: nat, c: byte): nat {
    if q == 0 && c == CR then 1
    else if q == 1 && c == LF then 2
    else if q == 2 && c == CR then 3
    else if q == 3 && c == LF then 4
    else 0
  }

  /** The scanner after a whole prefix of the request; once stopped it stays stopped. */
  function After(s: seq<byte>): nat {
    if s == [] then 0
    else if After(s[..|s| - 1]) == 4 then 4
    else Scan(After(s[..|s| - 1]), s[|s| - 1])
  }

  lemma AfterSnoc(s: seq<byte>, c: byte)
    ensures After(s + [c]) == if After(s) == 4 then 4 else Scan(After(s), c)
  {
    assert (s + [c])[..|s|] == s;
  }

  lemma AfterStep(s: seq<byte>, n: nat)
    requires n < |s|
    ensures After(s[..n + 1]) == if After(s[..n]) == 4 then 4 else Scan(After(s[..n]), s[n])
  {
    assert s[..n + 1] == s[..n] + [s[n]];
    AfterSnoc(s[..n], s[n]);
  }

  /** The scanner stops on reading the n-th byte. */
  predicate StopsAt(s: seq<byte>, n: nat) {
    0 < n <= |s| && After(s[..n]) == 4 && After(s[..n - 1]) != 4
  }

  /** The n-th byte of s ends a blank line. */
  predicate EndsAt(s: seq<byte>, n: nat) {
    4 <= n <= |s| && s[n - 4..n] == BLANK_LINE
  }

  ghost predicate FirstEnd(s: seq<byte>, n: nat) {
    EndsAt(s, n) && forall m :: 0 <= m < n ==> !EndsAt(s, m)
  }

  /** What the scanner remembers is a suffix of what it read. */
  lemma {:induction false} AfterMatches(s: seq<byte>, n: nat)
    requires n <= |s| && After(s[..n]) != 4
    ensures After(s[..n]) <= 3
    ensures var q := After(s[..n]); q <= n && s[n - q..n] == BLANK_LINE[..q]
  {
    if n > 0 {
      AfterStep(s, n - 1);
      AfterMatches(s, n - 1);
      var p, q := After(s[..n - 1]), After(s[..n]);
      if q > 0 {
        assert q == p + 1 || (p == 0 && q == 1);
        assert s[n - q..n] == s[n - 1 - p..n - 1] + [s[n - 1]];
        assert BLANK_LINE[..q] == BLANK_LINE[..p] + [BLANK_LINE[p]];
      }
    }
  }

  /** Whenever the scanner stops, what it consumed ends in CRLFCRLF. */
  lemma StopsOnlyAtBlankLine(s: seq<byte>, n: nat)
    requires StopsAt(s, n)
    ensures EndsAt(s, n)
  {
    AfterStep(s, n - 1);
    AfterMatches(s, n - 1);
    assert s[n - 4..n] == s[n - 4..n - 1] + [s[n - 1]];
    assert BLANK_LINE == BLANK_LINE[..3] + [LF];
  }

  lemma {:induction false} StoppedSomewhere(s: seq<byte>, n: nat) returns (m: nat)
    requires n <= |s| && After(s[..n]) == 4
    ensures m <= n && StopsAt(s, m)
  {
    if After(s[..n - 1]) == 4 {
      m := StoppedSomewhere(s, n - 1);
    } else {
      m := n;
    }
  }

  /** Carriage returns in a row at the end of s. */
  function CrRun(s: seq<byte>): nat {
    if s == [] || s[|s| - 1] != CR then 0 else 1 + CrRun(s[..|s| - 1])
  }

  /** A CR that finds the scanner expecting LF resets it instead of counting as a new start: along a run
      of CRs the state alternates. */
  lemma {:induction false} StateByRunParity(s: seq<byte>)
    requires After(s) != 4
    ensures if CrRun(s) % 2 == 1 then After(s) == 1 || (After(s) == 3 && CrRun(s) == 1)
            else After(s) == 0 || (After(s) == 2 && CrRun(s) == 0)
    decreases |s|
  {
    if s != [] {
      StateByRunParity(s[..|s| - 1]);
    }
  }

  /** A blank line that opens with an odd number of CRs. */
  predicate OddEnd(s: seq<byte>, n: nat) {
    EndsAt(s, n) && CrRun(s[..n - 3]) % 2 == 1
  }

  /** A scanner that has not stopped before a blank line stops at its end exactly if it opens with an odd
      number of CRs. */
  lemma StopsAtOddEnd(s: seq<byte>, n: nat)
    requires EndsAt(s, n) && After(s[..n - 1]) != 4
    ensures After(s[..n]) == 4 <==> OddEnd(s, n)
  {
    assert s[n - 4] == s[n - 4..n][0] && s[n - 3] == s[n - 4..n][1];
    assert s[n - 2] == s[n - 4..n][2] && s[n - 1] == s[n - 4..n][3];
    assert s[..n - 3][..n - 4] == s[..n - 4];
    AfterStep(s, n - 3);
    AfterStep(s, n - 2);
    AfterStep(s, n - 1);
    StateByRunParity(s[..n - 3]);
  }

  /** The law of the scanner, for every stream: it stops at the first CRLFCRLF that opens with an odd
      number of CRs, and nowhere else. */
  lemma StopsAtFirstOddEnd(s: seq<byte>, n: nat)
    ensures StopsAt(s, n) <==> OddEnd(s, n) && forall m :: 0 <= m < n ==> !OddEnd(s, m)
  {
    if StopsAt(s, n) {
      StopsOnlyAtBlankLine(s, n);
      StopsAtOddEnd(s, n);
      forall m | 0 <= m < n
        ensures !OddEnd(s, m)
      {
        NotStopped(s, m, n - 1);
        if EndsAt(s, m) {
          NotStopped(s, m - 1, n - 1);
          StopsAtOddEnd(s, m);
        }
      }
    }
    if OddEnd(s, n) && forall m :: 0 <= m < n ==> !OddEnd(s, m) {
      if After(s[..n - 1]) == 4 {
        var k := StoppedSomewhere(s, n - 1);
        StopsOnlyAtBlankLine(s, k);
        StopsAtOddEnd(s, k);
      } else {
        StopsAtOddEnd(s, n);
      }
    }
  }

  lemma {:induction false} StopsOnce(s: seq<byte>, m: nat, n: nat)
    requires m <= n <= |s| && After(s[..m]) == 4
    ensures After(s[..n]) == 4
    decreases n
  {
    if m < n {
      StopsOnce(s, m, n - 1);
      AfterStep(s, n - 1);
    }
  }

  lemma NotStopped(s: seq<byte>, m: nat, n: nat)
    requires m <= n <= |s| && After(s[..n]) != 4
    ensures After(s[..m]) != 4
  {
    if After(s[..m]) == 4 {
      StopsOnce(s, m, n);
    }
  }

  /** So it stops at the first blank line of the request if and only if the run of CRs with which that
      blank line opens has odd length. */
  lemma FindsFirstEndIff(s: seq<byte>, n: nat)
    requires FirstEnd(s, n)
    ensures StopsAt(s, n) <==> CrRun(s[..n - 3]) % 2 == 1
  {
    StopsAtFirstOddEnd(s, n);
  }

  /** No bare CR: every CR is followed by LF, as section 2.2 of RFC 9112 asks of a sender. */
  predicate NoBareCr(s: seq<byte>) {
    forall i :: 0 <= i < |s| - 1 && s[i] == CR ==> s[i + 1] == LF
  }

  /** On requests without bare CR the scanner is exact: it stops at n just when the first blank line
      ends at n. */
  lemma ExactWithoutBareCr(s: seq<byte>, n: nat)
    requires NoBareCr(s)
    ensures StopsAt(s, n) <==> FirstEnd(s, n)
  {
    StopsAtFirstOddEnd(s, n);
    forall m | 0 <= m <= n
      ensures OddEnd(s, m) <==> EndsAt(s, m)
    {
      if EndsAt(s, m) {
        OddWithoutBareCr(s, m);
      }
    }
  }

  lemma OddWithoutBareCr(s: seq<byte>, n: nat)
    requires NoBareCr(s) && EndsAt(s, n)
    ensures CrRun(s[..n - 3]) == 1
  {
    assert s[n - 4] == s[n - 4..n][0];
    var p := s[..n - 3];
    assert p[|p| - 1] == CR;
    if n > 4 {
      assert p[..|p| - 1][|p| - 2] == s[n - 5] != CR;
    }
  }

  /** A request that the scanner reads past: its blank line opens with two CRs. */
  lemma DoubledCrIsMissed()
    ensures var s := [CR, CR, LF, CR, LF];
      FirstEnd(s, 5) && forall n :: !StopsAt(s, n)
  {
    var s := [CR, CR, LF, CR, LF];
    assert s[..1] == [CR] && s[..2] == [CR, CR];
    assert !EndsAt(s, 4) by { assert s[0..4][1] != BLANK_LINE[1]; }
    assert s[1..5] == BLANK_LINE;
    assert CrRun(s[..2]) == 2 by {
      assert s[..2][..1] == [CR] && [CR][..0] == [];
      assert CrRun([CR]) == 1;
    }
    FindsFirstEndIff(s, 5);
    forall n | StopsAt(s, n)
      ensures false
    {
      StopsOnlyAtBlankLine(s, n);
    }
  }

  // ---- Serving one client ----

  datatype Recv = Byte(c: byte) | Retry | Closed | Failed   // recv(): a byte, EAGAIN or EINTR, 0, an error

  datatype Outcome = RequestEnd | ClientGone | Waiting

  function BytesOf(results: seq<Recv>): seq<byte> {
    if results == [] then [] else
    var n := |results| - 1;
    if results[n].Byte? then BytesOf(results[..n]) + [results[n].c] else BytesOf(results[..n])
  }

  /** What BytesOf is: the byte of a Byte, nothing for any other result, and of several results those of
      each in turn. */
  lemma {:induction false} BytesOfAdds(a: seq<Recv>, b: seq<Recv>, c: byte)
    ensures BytesOf(a + b) == BytesOf(a) + BytesOf(b)
    ensures BytesOf([Byte(c)]) == [c]
    ensures BytesOf([Retry]) == BytesOf([Closed]) == BytesOf([Failed]) == []
    decreases |b|
  {
    assert forall r: Recv :: [r][..0] == [];
    if b == [] {
      assert a + b == a;
    } else {
      var n := |b| - 1;
      BytesOfAdds(a, b[..n], c);
      assert (a + b)[..|a + b| - 1] == a + b[..n];
    }
  }

  /** What the loop comes to from scanner state q, and the bytes it consumes on the way: an error or a
      closed connection ends it, a retry is nothing, a byte moves the scanner. */
  function Discarded(q: nat, results: seq<Recv>): (Outcome, seq<byte>)
    decreases |results|
  {
    if results == [] then (Waiting, [])
    else match results[0]
      case Retry => Discarded(q, results[1..])
      case Byte(c) =>
        if Scan(q, c) == 4 then (RequestEnd, [c])
        else var d := Discarded(Scan(q, c), results[1..]); (d.0, [c] + d.1)
      case _ => (ClientGone, [])
  }

  /** The results without the retries. */
  function WithoutRetries(results: seq<Recv>): (r: seq<Recv>)
    ensures Retry !in r && BytesOf(r) == BytesOf(results)
  {
    if results == [] then []
    else
      BytesOfAdds([results[0]], WithoutRetries(results[1..]), NUL);
      BytesOfAdds([results[0]], results[1..], NUL);
      assert results == [results[0]] + results[1..];
      if results[0] == Retry then WithoutRetries(results[1..]) else [results[0]] + WithoutRetries(results[1..])
  }

  /** A retry more or less, at any point, changes neither the outcome nor the bytes consumed. */
  lemma {:induction false} RetryIgnored(q: nat, a: seq<Recv>, b: seq<Recv>)
    ensures Discarded(q, a + [Retry] + b) == Discarded(q, a + b)
    decreases |a|
  {
    if a == [] {
      assert a + [Retry] + b == [Retry] + b && a + b == b;
      assert ([Retry] + b)[1..] == b;
    } else {
      assert (a + [Retry] + b)[1..] == a[1..] + [Retry] + b && (a + b)[1..] == a[1..] + b;
      match a[0]
      case Retry => RetryIgnored(q, a[1..], b);
      case Byte(c) => RetryIgnored(Scan(q, c), a[1..], b);
      case _ =>
    }
  }

  /** So all retries can be deleted. */
  lemma {:induction false} RetriesIgnored(q: nat, results: seq<Recv>)
    ensures Discarded(q, WithoutRetries(results)) == Discarded(q, results)
    decreases |results|
  {
    if results != [] {
      match results[0]
      case Retry => RetriesIgnored(q, results[1..]);
      case Byte(c) => RetriesIgnored(Scan(q, c), results[1..]);
      case _ =>
    }
  }

  /** The bytes received before the connection closed or failed. */
  function Received(results: seq<Recv>): seq<byte> {
    if results == [] || results[0] == Closed || results[0] == Failed then []
    else BytesOf([results[0]]) + Received(results[1..])
  }

  lemma ReceivedFirst(results: seq<Recv>)
    requires results != []
    ensures Received(results) == match results[0]
      case Retry => Received(results[1..])
      case Byte(c) => [c] + Received(results[1..])
      case _ => []
  {
    match results[0]
    case Byte(c) => BytesOfAdds([], [], c);
    case _ => BytesOfAdds([], [], NUL);
  }

  /** Stopped at a prefix, the scanner stays stopped. */
  lemma StaysStopped(pre: seq<byte>, more: seq<byte>)
    requires After(pre) == 4
    ensures After(pre + more) == 4
  {
    var all := pre + more;
    assert all[..|pre|] == pre && all[..|all|] == all;
    StopsOnce(all, |pre|, |all|);
  }

  lemma {:induction false} ScansOn(pre: seq<byte>, results: seq<Recv>)
    requires After(pre) != 4
    ensures Discarded(After(pre), results).0 == RequestEnd <==> After(pre + Received(results)) == 4
    decreases |results|
  {
    if results == [] {
      assert pre + [] == pre;
    } else {
      ReceivedFirst(results);
      match results[0]
      case Retry => ScansOn(pre, results[1..]);
      case Byte(c) =>
        AfterSnoc(pre, c);
        assert pre + ([c] + Received(results[1..])) == (pre + [c]) + Received(results[1..]);
        if After(pre + [c]) == 4 {
          StaysStopped(pre + [c], Received(results[1..]));
        } else {
          ScansOn(pre + [c], results[1..]);
        }
      case _ => assert pre + [] == pre;
    }
  }

  /** The loop, for everything recv may return: the end of a request is found if and only if the bytes
      received hold a CRLFCRLF that opens with an odd number of CRs. */
  lemma RequestEndsIff(results: seq<Recv>)
    ensures Discarded(0, results).0 == RequestEnd <==> exists n :: OddEnd(Received(results), n)
  {
    var s := Received(results);
    ScansOn([], results);
    assert [] + s == s && s[..|s|] == s;
    if After(s) == 4 {
      var n := StoppedSomewhere(s, |s|);
      StopsAtFirstOddEnd(s, n);
    }
    if n :| OddEnd(s, n) {
      StopsByOddEnd(s, n);
    }
  }

  lemma StopsByOddEnd(s: seq<byte>, n: nat)
    requires OddEnd(s, n)
    ensures After(s) == 4
  {
    assert s[..|s|] == s;
    if After(s) != 4 {
      NotStopped(s, n, |s|);
      NotStopped(s, n - 1, |s|);
      StopsAtOddEnd(s, n);
    }
  }

  ghost predicate KeepsReading(results: seq<Recv>) {
    && (forall i :: 0 <= i < |results| ==> results[i].Byte? || results[i].Retry?)
    && After(BytesOf(results)) != 4
  }

  /** After used results the scanner is in state q, and the loop goes on from there. */
  ghost predicate Reached(results: seq<Recv>, used: nat, q: nat)
    requires used <= |results|
  {
    var d := Discarded(q, results[used..]);
    Discarded(0, results) == (d.0, BytesOf(results[..used]) + d.1)
  }

  lemma ReachedEnds(results: seq<Recv>, q: nat)
    ensures Reached(results, 0, 0)
    ensures Reached(results, |results|, q) ==> Discarded(0, results) == (Waiting, BytesOf(results))
  {
    assert results[0..] == results && results[..0] == [] && results[..|results|] == results;
    assert [] + Discarded(0, results).1 == Discarded(0, results).1;
    assert BytesOf(results) + [] == BytesOf(results);
  }

  lemma ReadOn(results: seq<Recv>, used: nat, q: nat)
    requires used < |results| && Reached(results, used, q)
    ensures match results[used]
      case Retry => Reached(results, used + 1, q)
      case Byte(c) => if Scan(q, c) == 4 then Discarded(0, results) == (RequestEnd, BytesOf(results[..used + 1]))
                      else Reached(results, used + 1, Scan(q, c))
      case _ => Discarded(0, results) == (ClientGone, BytesOf(results[..used + 1]))
  {
    var pre := BytesOf(results[..used]);
    assert results[used..][1..] == results[used + 1..];
    assert results[..used + 1][..used] == results[..used];
    match results[used]
    case Byte(c) =>
      if Scan(q, c) != 4 {
        var d := Discarded(Scan(q, c), results[used + 1..]);
        assert pre + ([c] + d.1) == (pre + [c]) + d.1;
      }
    case _ => assert pre + [] == pre;
  }

  /** One more result: a retry changes nothing, a byte that does not stop the scanner moves it. */
  lemma OneMoreRead(results: seq<Recv>, used: nat)
    requires used < |results| && KeepsReading(results[..used])
    ensures var q, b := After(BytesOf(results[..used])), BytesOf(results[..used + 1]);
      match results[used]
      case Retry => KeepsReading(results[..used + 1]) && After(b) == q
      case Byte(c) => if Scan(q, c) == 4 then StopsAt(b, |b|) else KeepsReading(results[..used + 1]) && After(b) == Scan(q, c)
      case _ => true
  {
    var b := BytesOf(results[..used]);
    assert results[..used + 1][..used] == results[..used];
    match results[used]
    case Byte(c) =>
      AfterSnoc(b, c);
      assert (b + [c])[..|b|] == b && (b + [c])[..|b| + 1] == b + [c];
    case _ =>
  }

  /** The loop that discards the request. It reads on as long as no blank line was scanned, however many
      retries come between the bytes. */
  method DiscardRequest(results: seq<Recv>) returns (outcome: Outcome, used: nat)
    ensures used <= |results|
    ensures outcome == Waiting ==> used == |results| && KeepsReading(results)
    ensures outcome != Waiting ==> used > 0 && KeepsReading(results[..used - 1])
    ensures outcome == ClientGone ==> results[used - 1] == Closed || results[used - 1] == Failed
    ensures outcome == RequestEnd ==> var b := BytesOf(results[..used]); StopsAt(b, |b|)
    ensures (outcome, BytesOf(results[..used])) == Discarded(0, results)
  {
    var reqState := 0;
    used := 0;
    ReachedEnds(results, 0);
    while used < |results|
      invariant used <= |results| && KeepsReading(results[..used])
      invariant reqState == After(BytesOf(results[..used])) && Reached(results, used, reqState)
    {
      var r := results[used];
      ReadOn(results, used, reqState);
      OneMoreRead(results, used);
      used := used + 1;
      if r == Closed || r == Failed {
        return ClientGone, used;
      }
      if r == Retry {
        continue;
      }
      if reqState == 0 && r.c == CR {
        reqState := reqState + 1;
      } else if reqState == 1 && r.c == LF {
        reqState := reqState + 1;
      } else if reqState == 2 && r.c == CR {
        reqState := reqState + 1;
      } else if reqState == 3 && r.c == LF {
        return RequestEnd, used;
      } else {
        reqState := 0;
      }
    }
    assert results[..used] == results;
    ReachedEnds(results, reqState);
    outcome := Waiting;
  }

  datatype SendResult = Sent(n: nat) | SendError

  /** What send() may return, call by call, for len bytes left: at least one byte, at most len. */
  predicate LegalSends(len: nat, results: seq<SendResult>) {
    results == [] || len == 0 || results[0] == SendError
    || (1 <= results[0].n <= len && LegalSends(len - results[0].n, results[1..]))
  }

  /** The bytes some send() calls took in all. */
  function Total(results: seq<SendResult>): nat {
    if results == [] then 0 else
    var n := |results| - 1;
    Total(results[..n]) + if results[n].Sent? then results[n].n else 0
  }

  /** What Total is: the bytes of one successful call, none of a failed one, and of several calls the sum. */
  lemma {:induction false} TotalAdds(a: seq<SendResult>, b: seq<SendResult>, n: nat)
    ensures Total(a + b) == Total(a) + Total(b)
    ensures Total([Sent(n)]) == n && Total([SendError]) == 0
    decreases |b|
  {
    assert forall r: SendResult :: [r][..0] == [];
    if b == [] {
      assert a + b == a;
    } else {
      TotalAdds(a, b[..|b| - 1], n);
      assert (a + b)[..|a + b| - 1] == a + b[..|b| - 1];
    }
  }

  /** The loop that sends the response. The first used calls succeed and the bytes they took are the
      prefix of the response that was sent; then all of it is sent, or the next call fails, or is still to
      come. */
  method SendResponse(content: seq<byte>, results: seq<SendResult>) returns (sent: seq<byte>, used: nat)
    requires LegalSends(|content|, results)
    ensures used <= |results| && forall i :: 0 <= i < used ==> results[i].Sent?
    ensures |sent| == Total(results[..used]) && sent <= content
    ensures sent == content || used == |results| || results[used] == SendError
    ensures |results| >= |content| && SendError !in results ==> sent == content
  {
    var data: nat, len: nat := 0, |content|;
    sent, used := [], 0;
    while len > 0 && used < |results|
      invariant data + len == |content| && used <= |results| && used <= data
      invariant sent == content[..data] && data == Total(results[..used])
      invariant LegalSends(len, results[used..])
      invariant forall k :: 0 <= k < used ==> results[k].Sent?
      decreases len
    {
      var sentLen := results[used];
      assert results[used..][1..] == results[used + 1..];
      if sentLen == SendError {
        break;
      }
      assert results[..used + 1][..used] == results[..used];
      sent := sent + content[data..data + sentLen.n];
      data := data + sentLen.n;
      len := len - sentLen.n;
      used := used + 1;
    }
  }

  /** One connection: once the end of a request was seen the response goes out, whole unless a call fails
      or is still to come; without one nothing is sent. */
  method ServeClient(content: seq<byte>, recvs: seq<Recv>, sends: seq<SendResult>)
    returns (ended: bool, sent: seq<byte>, used: nat)
    requires LegalSends(|content|, sends)
    ensures ended <==> exists n :: OddEnd(Received(recvs), n)
    ensures ended ==> exists n :: 0 < n <= |recvs| && EndsAt(BytesOf(recvs[..n]), |BytesOf(recvs[..n])|)
    ensures used <= |sends| && forall i :: 0 <= i < used ==> sends[i].Sent?
    ensures |sent| == Total(sends[..used]) && sent <= content
    ensures ended ==> sent == content || used == |sends| || sends[used] == SendError
    ensures !ended ==> sent == [] && used == 0
    ensures !ended ==> KeepsReading(recvs)
                       || exists n :: 0 <= n < |recvs| && KeepsReading(recvs[..n]) && recvs[n] in {Closed, Failed}
  {
    var outcome, consumed := DiscardRequest(recvs);
    RequestEndsIff(recvs);
    ended, sent, used := outcome == RequestEnd, [], 0;
    if ended {
      ghost var request := BytesOf(recvs[..consumed]);
      StopsOnlyAtBlankLine(request, |request|);
      sent, used := SendResponse(content, sends);
    } else if outcome == ClientGone {
      assert KeepsReading(recvs[..consumed - 1]) && recvs[consumed - 1] in {Closed, Failed};
    }
  }
}
