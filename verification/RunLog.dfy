/** Log files and the pump that copies a child's output into one. */
module RunLog {

  /** One answer of the write system call; it never takes more than it is given. */
  datatype WriteResult = Wrote(n: nat) | Interrupted | WriteError

  /** The kernel keeps taking bytes, however few at a time and however often interrupted. */
  ghost predicate Steady(kernel: seq<WriteResult>) {
    forall i :: 0 <= i < |kernel| ==> kernel[i] != WriteError && kernel[i] != Wrote(0)
  }

  /** What reaches the file when `data` is written and the first calls are answered so: writing goes on after an
      interruption and after a part was taken, and stops at an error. Later calls take what they are given. */
  function Taken(data: string, kernel: seq<WriteResult>): (written: string)
    ensures written <= data && (Steady(kernel) ==> written == data)
    decreases |kernel|
  {
    if data == "" || kernel == [] then data
    else match kernel[0]
      case Interrupted => Taken(data, kernel[1..])
      case WriteError => ""
      case Wrote(n) =>
        if n == 0 then "" else if n >= |data| then data else data[..n] + Taken(data[n..], kernel[1..])
  }

  /** The bytes that calls take which answer so. */
  function Sum(calls: seq<WriteResult>): nat {
    if calls == [] then 0 else (if calls[0].Wrote? then calls[0].n else 0) + Sum(calls[1..])
  }

  predicate Fails(call: WriteResult) {
    call == WriteError || call == Wrote(0)
  }

  /** Up to the first call that fails, what is written is as much as the calls before it take; if none fails, or
      all is written before, it is everything. */
  lemma {:induction false} TakenExactly(data: string, kernel: seq<WriteResult>, k: nat)
    requires k <= |kernel| && (forall i :: 0 <= i < k ==> !Fails(kernel[i])) && (k < |kernel| ==> Fails(kernel[k]))
    ensures Taken(data, kernel)
         == if k < |kernel| && Sum(kernel[..k]) < |data| then data[..Sum(kernel[..k])] else data
    decreases |kernel|
  {
    if data != "" && kernel != [] && k > 0 {
      var rest := if kernel[0].Wrote? && kernel[0].n < |data| then data[kernel[0].n..] else data;
      TakenExactly(rest, kernel[1..], k - 1);
      assert kernel[1..][..k - 1] == kernel[..k][1..];
    }
  }

  /** How the next call answers, and the calls after it. */
  function Answer(calls: seq<WriteResult>, remaining: nat): WriteResult {
    if calls == [] then Wrote(remaining) else calls[0]
  }

  function Later(calls: seq<WriteResult>): seq<WriteResult> {
    if calls == [] then [] else calls[1..]
  }

  /** What is written in all, if p bytes are already. */
  function WithMore(data: string, p: nat, calls: seq<WriteResult>): string
    requires p <= |data|
  {
    data[..p] + Taken(data[p..], calls)
  }

  lemma BeforeAndAfter(data: string, calls: seq<WriteResult>)
    ensures WithMore(data, 0, calls) == Taken(data, calls) && WithMore(data, |data|, calls) == data
  {
    assert data[0..] == data && data[..0] == "" && data[|data|..] == "" && data[..|data|] == data;
  }

  /** What one call does to what is left. */
  lemma TakenNext(rest: string, calls: seq<WriteResult>)
    requires rest != ""
    ensures
      match Answer(calls, |rest|)
      case Interrupted => Taken(rest, calls) == Taken(rest, Later(calls))
      case WriteError => Taken(rest, calls) == ""
      case Wrote(n) =>
        if n == 0 then Taken(rest, calls) == ""
        else if n >= |rest| then Taken(rest, calls) == rest
        else Taken(rest, calls) == rest[..n] + Taken(rest[n..], Later(calls))
  {
  }

  /** One more call. */
  lemma OneCall(data: string, p: nat, calls: seq<WriteResult>)
    requires p < |data|
    ensures
      match Answer(calls, |data| - p)
      case Interrupted => WithMore(data, p, calls) == WithMore(data, p, Later(calls))
      case WriteError => WithMore(data, p, calls) == data[..p]
      case Wrote(n) =>
        if n == 0 then WithMore(data, p, calls) == data[..p]
        else WithMore(data, p, calls) == WithMore(data, if p + n < |data| then p + n else |data|, Later(calls))
  {
    hide Taken, Later, Answer;
    var rest, answer := data[p..], Answer(calls, |data| - p);
    TakenNext(rest, calls);
    if answer.Wrote? && answer.n > 0 {
      if p + answer.n < |data| {
        assert rest[answer.n..] == data[p + answer.n..];
        Joined(data[..p], rest[..answer.n], Taken(rest[answer.n..], Later(calls)));
        assert data[..p] + rest[..answer.n] == data[..p + answer.n];
      } else {
        BeforeAndAfter(data, Later(calls));
        assert data[..p] + rest == data;
      }
    }
  }

  lemma Joined(a: string, b: string, c: string)
    ensures a + (b + c) == a + b + c
  {
  }

  /** Writes all of `data`. `kernel` lists the answers of the first calls; later calls take
      everything they are given. */
  method WriteAll(data: string, kernel: seq<WriteResult>) returns (ok: bool, written: string)
    ensures written == Taken(data, kernel)
    ensures ok <==> written == data
    ensures Steady(kernel) ==> ok
  {
    hide Taken, WithMore;
    var p: nat, remaining: nat := 0, |data|;
    var calls := kernel;
    BeforeAndAfter(data, kernel);
    while remaining > 0
      invariant p + remaining == |data| && Taken(data, kernel) == WithMore(data, p, calls)
      decreases remaining + |calls|
    {
      OneCall(data, p, calls);
      var answer := Answer(calls, remaining);
      calls := Later(calls);
      if answer == Interrupted {
        continue;
      }
      if answer == WriteError || answer == Wrote(0) {
        return false, data[..p];
      }
      var n := if answer.n < remaining then answer.n else remaining;
      p := p + n;
      remaining := remaining - n;
    }
    BeforeAndAfter(data, calls);
    return true, data;
  }

  class LogFile {
    var isOpen: bool
    var content: string

    constructor ()
      ensures !isOpen && content == ""
    {
      isOpen, content := false, "";
    }

    method Open(canOpen: bool) returns (ok: bool)
      modifies this
      ensures ok == isOpen == canOpen
      ensures content == if canOpen then "" else old(content)
    {
      isOpen := canOpen;
      if canOpen {
        content := "";
      }
      return canOpen;
    }

    /** Silent once the file is closed. */
    method Write(data: string, kernel: seq<WriteResult>)
      modifies this`content
      ensures content == if isOpen then old(content) + Taken(data, kernel) else old(content)
    {
      if !isOpen {
        return;
      }
      var ok, written := WriteAll(data, kernel);
      content := content + written;
    }

    method Close()
      modifies this`isOpen
      ensures !isOpen
    {
      isOpen := false;
    }
  }

  /** The read loop over a child's output. */
  class OutputTee {
    const log: LogFile
    var reading: bool       // a read has not called back yet
    var handlerSet: bool    // the end-of-output handler has not been called

    constructor (log: LogFile)
      ensures this.log == log && reading && handlerSet
    {
      this.log := log;
      reading, handlerSet := true, true;
    }

    method OnChunk(data: string, kernel: seq<WriteResult>)
      modifies log`content
      ensures log.content == if log.isOpen then old(log.content) + Taken(data, kernel) else old(log.content)
    {
      log.Write(data, kernel);
    }

    /** End of output, or the stream was closed: the handler is called once. */
    method OnEof() returns (fire: bool)
      modifies this
      ensures !reading && !handlerSet && fire == old(handlerSet)
    {
      fire := handlerSet;
      reading, handlerSet := false, false;
    }
  }
}
