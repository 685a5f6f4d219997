/** The streaming limit on request bodies (app/core/http/request_size_limit.py). */
module SizeLimit {

  import opened Common

  type Bytes = seq<bv8>

  /** An ASGI message; a request message without a body has an empty one. */
  datatype Message = HttpRequest(body: Bytes, more: bool) | HttpDisconnect

  /** `upstream` is what the server will still deliver; then the client is gone. */
  datatype State = State(received: nat, rejected: bool, responses: nat, upstream: seq<Message>)

  function Start(upstream: seq<Message>): State {
    State(0, false, 0, upstream)
  }

  function Size(m: Message): nat {
    if m.HttpRequest? then |m.body| else 0
  }

  function Total(ms: seq<Message>): nat {
    if ms == [] then 0 else Total(ms[..|ms| - 1]) + Size(ms[|ms| - 1])
  }

  /** What `receive()` returns next. */
  function Next(st: State): Message {
    if st.upstream == [] then HttpDisconnect else st.upstream[0]
  }

  function Rest(st: State): seq<Message> {
    if st.upstream == [] then [] else st.upstream[1..]
  }

  /** One call of `_wrapped_receive`: the message handed to the application, and the state. */
  function Receive(limit: nat, st: State): (Message, State) {
    if st.rejected then (HttpDisconnect, st)
    else
      var m := Next(st);
      var size := st.received + Size(m);
      if m.HttpRequest? && size > limit then (HttpDisconnect, State(size, true, st.responses + 1, Rest(st)))
      else (m, State(size, false, st.responses, Rest(st)))
  }

  /** The messages of n calls, and the state after them. */
  function Reads(limit: nat, st: State, n: nat): (seq<Message>, State) {
    if n == 0 then ([], st)
    else
      var (ms, mid) := Reads(limit, st, n - 1);
      var (m, end) := Receive(limit, mid);
      (ms + [m], end)
  }

  // ---------------------------------------------------------------- what holds after every read

  lemma TotalNext(ms: seq<Message>, m: Message)
    ensures Total(ms + [m]) == Total(ms) + Size(m)
  {
    assert (ms + [m])[..|ms|] == ms;
  }

  /** What holds of the messages `seen` by the application and the state `st`, when `asked` are the
      messages it would have seen without a limit. */
  ghost predicate Told(limit: nat, seen: seq<Message>, asked: seq<Message>, st: State) {
    && |seen| == |asked| && Total(seen) <= limit
    && (st.rejected <==> Total(asked) > limit)
    && st.responses == (if st.rejected then 1 else 0)
    && (!st.rejected ==> seen == asked && st.received == Total(seen))
  }

  lemma ToldNext(limit: nat, seen: seq<Message>, asked: seq<Message>, st: State, next: Message)
    requires Told(limit, seen, asked, st) && (!st.rejected ==> next == Next(st))
    ensures Told(limit, seen + [Receive(limit, st).0], asked + [next], Receive(limit, st).1)
  {
    TotalNext(seen, Receive(limit, st).0);
    TotalNext(asked, next);
  }

  // ---------------------------------------------------------------- which limit

  const MEGABYTE: nat := 1024 * 1024

  /** `_IMAGE_UPLOAD_RE` and `_CSV_IMPORT_RE`, as tests on the path. */
  datatype Routes = Routes(image: string -> bool, csvImport: string -> bool)

  /** `_limit_for` */
  function LimitFor(routes: Routes, verb: string, path: string): nat {
    if verb == "POST" && routes.image(path) then 10 * MEGABYTE
    else if verb == "POST" && routes.csvImport(path) then 5 * MEGABYTE
    else MEGABYTE
  }

  /** The middleware around one HTTP request. */
  class Limiter {
    const limit: nat
    var received: nat
    var rejected: bool
    var responses: nat
    var upstream: seq<Message>
    ghost var seen: seq<Message>    // what the application has received
    ghost var asked: seq<Message>   // what it would have received without a limit

    ghost function View(): State
      reads this
    {
      State(received, rejected, responses, upstream)
    }

    /** Never more than the limit received; rejected exactly when more was asked for, with exactly
        one response; and until then every message passed unchanged. */
    ghost predicate Valid()
      reads this
    {
      Told(limit, seen, asked, View())
    }

    constructor (routes: Routes, verb: string, path: string, messages: seq<Message>)
      ensures limit == LimitFor(routes, verb, path) && View() == Start(messages)
      ensures Valid() && seen == [] && asked == []
    {
      limit := LimitFor(routes, verb, path);
      received, rejected, responses, upstream := 0, false, 0, messages;
      seen, asked := [], [];
    }

    method ReceiveUpstream() returns (m: Message)
      modifies this`upstream
      ensures m == Next(old(View())) && upstream == Rest(old(View()))
    {
      if upstream == [] { return HttpDisconnect; }
      m := upstream[0];
      upstream := upstream[1..];
    }

    /** `_reject` */
    method Reject()
      modifies this`responses
      ensures responses == old(responses) + 1
    {
      responses := responses + 1;
    }

    /** `_wrapped_receive` */
    method WrappedReceive() returns (m: Message)
      requires Valid()
      modifies this
      ensures Valid() && seen == old(seen) + [m]
      ensures asked == old(asked) + [if old(rejected) then HttpDisconnect else Next(old(View()))]
      ensures rejected ==> m == HttpDisconnect
      ensures (m, View()) == Receive(limit, old(View()))
    {
      ghost var next := if rejected then HttpDisconnect else Next(View());
      ToldNext(limit, seen, asked, View(), next);
      seen, asked := seen + [Receive(limit, View()).0], asked + [next];
      if rejected { return HttpDisconnect; }
      var message := ReceiveUpstream();
      if message.HttpRequest? {
        received := received + |message.body|;
        if received > limit {
          rejected := true;
          Reject();
          return HttpDisconnect;
        }
      }
      m := message;
    }

    /** `__call__` for an application that calls `receive` so many times and then returns or raises.
        A Content-Length that parses and is over the limit is refused at once, and the application
        never runs; an exception after a rejection is swallowed, any other one goes on. */
    method Call(contentLength: Option<int>, calls: nat, raises: bool) returns (raised: bool)
      requires Valid() && View() == Start(upstream) && seen == []
      modifies this
      ensures contentLength.Some? && contentLength.value > limit ==>
                seen == [] && View() == old(View()).(responses := 1) && !raised
      ensures !(contentLength.Some? && contentLength.value > limit) ==>
                Valid() && (seen, View()) == Reads(limit, old(View()), calls) && raised == (raises && !rejected)
    {
      if contentLength.Some? && contentLength.value > limit {
        Reject();
        return false;
      }
      for k := 0 to calls
        invariant Valid() && (seen, View()) == Reads(limit, old(View()), k)
      {
        var _ := WrappedReceive();
      }
      raised := raises && !rejected;
    }
  }

  // ---------------------------------------------------------------- results

  /** The upstream messages read by n calls, were nothing rejected. */
  function Asked(ms: seq<Message>, n: nat): seq<Message> {
    if n == 0 then []
    else Asked(ms, n - 1) + [if n <= |ms| then ms[n - 1] else HttpDisconnect]
  }

  function Drop(ms: seq<Message>, n: nat): seq<Message> {
    if n <= |ms| then ms[n..] else []
  }

  /** Reading message by message walks through the upstream messages. */
  lemma DropNext(ms: seq<Message>, n: nat, st: State)
    requires st.upstream == Drop(ms, n)
    ensures Next(st) == (if n < |ms| then ms[n] else HttpDisconnect) && Rest(st) == Drop(ms, n + 1)
  {
  }

  /** The whole story of n reads.  While the bytes asked for fit, messages pass unchanged; once
      they do not, exactly one response has been sent; and the application has never received
      more than the limit. */
  lemma {:induction false} ReadsStory(limit: nat, ms: seq<Message>, n: nat)
    ensures var (seen, end) := Reads(limit, Start(ms), n);
            && |seen| == n && Told(limit, seen, Asked(ms, n), end)
            && (!end.rejected ==> end.upstream == Drop(ms, n))
  {
    if n > 0 {
      ReadsStory(limit, ms, n - 1);
      var (before, mid) := Reads(limit, Start(ms), n - 1);
      if !mid.rejected { DropNext(ms, n - 1, mid); }
      ToldNext(limit, before, Asked(ms, n - 1), mid, if n <= |ms| then ms[n - 1] else HttpDisconnect);
    }
  }

  /** The three limits: whatever the messages, an image upload delivers at most ten megabytes, another
      import of CSV at most five, and any other request at most one; more is rejected. */
  lemma BytesPerKind(routes: Routes, verb: string, path: string, ms: seq<Message>, n: nat)
    ensures var (seen, end) := Reads(LimitFor(routes, verb, path), Start(ms), n);
            var image := verb == "POST" && routes.image(path);
            var csv := verb == "POST" && routes.csvImport(path);
            && (image ==> Total(seen) <= 10485760 && (end.rejected <==> Total(Asked(ms, n)) > 10485760))
            && (csv && !image ==> Total(seen) <= 5242880 && (end.rejected <==> Total(Asked(ms, n)) > 5242880))
            && (!csv && !image ==> Total(seen) <= 1048576 && (end.rejected <==> Total(Asked(ms, n)) > 1048576))
  {
    ReadsStory(LimitFor(routes, verb, path), ms, n);
  }

  /** After a rejection the application only ever sees disconnects, and nothing else happens. */
  lemma {:induction false} OnlyDisconnectsAfter(limit: nat, st: State, m: nat, n: nat)
    requires m <= n && Reads(limit, st, m).1.rejected
    ensures Reads(limit, st, n).1 == Reads(limit, st, m).1
    ensures Reads(limit, st, n).0 == Reads(limit, st, m).0 + seq(n - m, _ => HttpDisconnect)
  {
    if m == n {
      assert seq(0, _ => HttpDisconnect) == [];
    } else {
      OnlyDisconnectsAfter(limit, st, m, n - 1);
      assert seq(n - m, _ => HttpDisconnect) == seq(n - 1 - m, _ => HttpDisconnect) + [HttpDisconnect];
    }
  }

  // ---------------------------------------------------------------- chunk boundaries

  /** A body cut into chunks. */
  function Chunked(chunks: seq<Bytes>): seq<Message> {
    seq(|chunks|, i requires 0 <= i < |chunks| => HttpRequest(chunks[i], i + 1 < |chunks|))
  }

  function Joined(chunks: seq<Bytes>): Bytes {
    if chunks == [] then [] else Joined(chunks[..|chunks| - 1]) + chunks[|chunks| - 1]
  }

  /** The body the application assembles. */
  function Body(ms: seq<Message>): Bytes {
    if ms == [] then [] else Body(ms[..|ms| - 1]) + if ms[|ms| - 1].HttpRequest? then ms[|ms| - 1].body else []
  }

  lemma {:induction false} AskedChunks(chunks: seq<Bytes>, n: nat)
    requires n <= |chunks|
    ensures Body(Asked(Chunked(chunks), n)) == Joined(chunks[..n])
    ensures Total(Asked(Chunked(chunks), n)) == |Joined(chunks[..n])|
  {
    if n > 0 {
      AskedChunks(chunks, n - 1);
      var before, m := Asked(Chunked(chunks), n - 1), Chunked(chunks)[n - 1];
      assert (before + [m])[..|before|] == before;
      assert chunks[..n][..n - 1] == chunks[..n - 1];
      TotalNext(before, m);
    }
  }

  /** For an application that reads the body to its end the verdict depends only on the body's
      size, never on the chunks; and an accepted body arrives whole. */
  lemma VerdictIgnoresChunks(limit: nat, chunks: seq<Bytes>)
    ensures var (seen, end) := Reads(limit, Start(Chunked(chunks)), |chunks|);
            && (end.rejected <==> |Joined(chunks)| > limit)
            && (!end.rejected ==> Body(seen) == Joined(chunks))
  {
    ReadsStory(limit, Chunked(chunks), |chunks|);
    AskedChunks(chunks, |chunks|);
    assert chunks[..|chunks|] == chunks;
  }
}
