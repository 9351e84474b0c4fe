// The single-client TCP server (common/tcp_server.h, common/tcp_server.cpp).
// The kernel's answers to accept, recv and send are parameters.
module TcpServers {
  import opened Wire

  // The buffer both daemons read into.
  const READ_CHUNK: nat := 1024

  // What recv() reported.
  datatype Received = Data(bytes: Bytes) | EndOfFile | NothingYet | Interrupted | Broken

  // What one send() call reported; a count is capped to what was offered.
  datatype SendResult = Took(n: nat) | SendInterrupted | WouldBlock | SendBroken

  // How many bytes the first k answers offer to take, all told.
  function Offered(answers: nat -> SendResult, k: nat): nat {
    if k == 0 then 0
    else Offered(answers, k - 1) + if answers(k - 1).Took? then answers(k - 1).n else 0
  }

  lemma OfferedAdds(answers: nat -> SendResult, k: nat, n: nat)
    ensures Offered(answers, 0) == 0
    ensures answers(k) == Took(n) ==> Offered(answers, k + 1) == Offered(answers, k) + n
    ensures !answers(k).Took? ==> Offered(answers, k + 1) == Offered(answers, k)
  {
  }

  // An answer that ends the attempt: an error, or nothing taken.
  predicate Refuses(a: SendResult) {
    a == SendBroken || a == Took(0)
  }

  predicate NoRefusal(answers: nat -> SendResult, k: nat) {
    forall j: nat | j < k :: !Refuses(answers(j))
  }

  // At some point the kernel has offered to take len bytes, and has not
  // refused before.
  ghost predicate TakesAll(answers: nat -> SendResult, len: nat) {
    exists k :: NoRefusal(answers, k) && Offered(answers, k) >= len
  }

  // In terms of the answers themselves.
  lemma NoRefusalMeans(answers: nat -> SendResult, k: nat)
    ensures NoRefusal(answers, k) <==> forall j: nat | j < k :: answers(j) != SendBroken && answers(j) != Took(0)
  {
    if NoRefusal(answers, k) {
      forall j: nat | j < k ensures answers(j) != SendBroken && answers(j) != Took(0) {
        assert !Refuses(answers(j));
      }
    }
  }

  lemma {:induction false} OfferedGrows(answers: nat -> SendResult, j: nat, k: nat)
    requires j <= k
    ensures Offered(answers, j) <= Offered(answers, k)
  {
    if j < k {
      OfferedGrows(answers, j, k - 1);
    }
  }

  // A refusal before enough was offered is final.
  lemma RefusalIsFinal(answers: nat -> SendResult, k: nat, len: nat)
    requires Refuses(answers(k)) && Offered(answers, k) < len
    ensures !TakesAll(answers, len)
  {
    if TakesAll(answers, len) {
      var n: nat :| NoRefusal(answers, n) && Offered(answers, n) >= len;
      if n <= k {
        OfferedGrows(answers, n, k);
      }
    }
  }

  class TcpServer {
    const listening: bool
    var client: bool
    // Every byte the kernel has accepted for the current client.
    ghost var wire: Bytes

    constructor (listens: bool)
      ensures listening == listens && !client && wire == []
    {
      listening := listens;
      client := false;
      wire := [];
    }

    // pending: a connection is waiting to be accepted. It replaces the
    // current client, if any.
    method PollAccept(pending: bool) returns (accepted: bool)
      modifies this
      ensures accepted <==> listening && pending
      ensures accepted ==> client && wire == []
      ensures !accepted ==> client == old(client) && wire == old(wire)
    {
      if !listening || !pending {
        return false;
      }
      client := true;
      wire := [];
      accepted := true;
    }

    // A count of -1 means the client went away; 0 means nothing to do.
    method PollRead(r: Received, cap: nat) returns (n: int, chunk: Bytes)
      requires r.Data? ==> 0 < |r.bytes| <= cap
      modifies this
      ensures wire == old(wire)
      ensures !old(client) ==> n == 0 && !client
      ensures old(client) && r.Data? ==> n == |r.bytes| && chunk == r.bytes && client
      ensures old(client) && (r.NothingYet? || r.Interrupted?) ==> n == 0 && client
      ensures old(client) && (r.EndOfFile? || r.Broken?) ==> n == -1 && !client
    {
      chunk := [];
      if !client {
        return 0, chunk;
      }
      match r
      case Data(bytes) =>
        n, chunk := |bytes|, bytes;
      case EndOfFile =>
        DropClient();
        n := -1;
      case NothingYet =>
        n := 0;
      case Interrupted =>
        n := 0;
      case Broken =>
        DropClient();
        n := -1;
    }

    // answers(k) is the kernel's answer to the k-th send() of this call. The
    // loop retries as long as the kernel says "interrupted" or "would block";
    // that it stops saying so from some call on is the caller's assumption,
    // since the code itself would spin for ever.
    method Send(data: Bytes, answers: nat -> SendResult, ghost calm: nat) returns (ok: bool, ghost sent: nat)
      requires forall k: nat | k >= calm :: answers(k) != SendInterrupted && answers(k) != WouldBlock
      modifies this
      ensures !old(client) ==> !ok && sent == 0
      ensures sent <= |data| && wire == old(wire) + data[..sent]
      ensures ok <==> old(client) && sent == |data|
      ensures client <==> ok
      // It all goes out exactly if at some point the kernel has offered to take
      // that much, and has neither failed nor taken nothing before; if not,
      // what it took up to the first such answer did.
      ensures ok <==> old(client) && TakesAll(answers, |data|)
      ensures old(client) && !ok ==>
                exists k :: Refuses(answers(k)) && NoRefusal(answers, k) && sent == Offered(answers, k)
    {
      if !client {
        ok, sent := false, 0;
        return;
      }
      var done, k := 0, 0;
      while done < |data|
        invariant done <= |data| && client && wire == old(wire) + data[..done]
        invariant NoRefusal(answers, k) && done == if Offered(answers, k) <= |data| then Offered(answers, k) else |data|
        decreases |data| - done, if k < calm then calm - k else 0
      {
        var answer := answers(k);
        OfferedAdds(answers, k, if answer.Took? then answer.n else 0);
        k := k + 1;
        if answer.Took? && answer.n > 0 {
          var n := if answer.n <= |data| - done then answer.n else |data| - done;
          wire := wire + data[done..done + n];
          assert data[..done + n] == data[..done] + data[done..done + n];
          done := done + n;
          continue;
        }
        if answer == SendInterrupted {
          continue;
        }
        if answer == WouldBlock {
          continue;
        }
        RefusalIsFinal(answers, k - 1, |data|);
        DropClient();
        ok, sent := false, done;
        return;
      }
      ok, sent := true, done;
      assert data[..done] == data;
      assert NoRefusal(answers, k) && Offered(answers, k) >= |data|;
    }

    method DropClient()
      modifies this
      ensures !client && wire == old(wire)
    {
      client := false;
    }
  }
}
