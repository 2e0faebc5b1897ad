/** The chunked Judge0 calls: one POST or GET per JUDGE0_BATCH_SIZE items. */
module Judge0Repository {
  import opened Collections

  type Token = string

  /** A token that Python's truth test accepts. */
  predicate Usable(token: Option<Token>) {
    token.Some? && token.value != ""
  }

  /** A call's outcome: Transient covers timeout, connection loss and 502. */
  datatype Reply<+T> = Ok(value: T) | Transient | Rejected

  datatype Judge0Result = Judge0Result(
    token: Token, statusId: Option<int>, stdout: Option<string>, time: Option<real>, memory: Option<int>)

  /** Judge0 itself. It answers one item per posted submission, in order, and remembers what it
      issued each token for; some requests fail as a whole. */
  class Judge0<Payload> {
    var issued: seq<(Payload, Option<Token>)>
    var requests: nat
    ghost var sizes: seq<nat>
    const nextToken: nat -> Option<Token>
    const fails: nat -> Option<bool>
    const known: map<Token, Judge0Result>

    constructor (nextToken: nat -> Option<Token>, fails: nat -> Option<bool>, known: map<Token, Judge0Result>)
      ensures issued == [] && requests == 0 && sizes == []
      ensures this.nextToken == nextToken && this.fails == fails && this.known == known
    {
      issued, requests, sizes := [], 0, [];
      this.nextToken, this.fails, this.known := nextToken, fails, known;
    }

    method PostBatch(chunk: seq<Payload>) returns (r: Reply<seq<Option<Token>>>)
      modifies this
      ensures requests == old(requests) + 1 && sizes == old(sizes) + [|chunk|]
      ensures r.Ok? <==> fails(old(requests)) == None
      ensures r == Transient <==> fails(old(requests)) == Some(true)
      ensures r.Ok? ==> r.value == Issue(nextToken, |old(issued)|, |chunk|)
                        && issued == old(issued) + Zip(chunk, r.value)
      ensures !r.Ok? ==> issued == old(issued)
    {
      match fails(requests) {
        case None =>
          var items := Issue(nextToken, |issued|, |chunk|);
          issued := issued + Zip(chunk, items);
          r := Ok(items);
        case Some(transient) =>
          r := if transient then Transient else Rejected;
      }
      requests, sizes := requests + 1, sizes + [|chunk|];
    }

    method GetBatch(chunk: seq<Token>) returns (r: Reply<seq<Option<Judge0Result>>>)
      modifies this`requests, this`sizes
      ensures requests == old(requests) + 1 && sizes == old(sizes) + [|chunk|]
      ensures r.Ok? <==> fails(old(requests)) == None
      ensures r == Transient <==> fails(old(requests)) == Some(true)
      ensures r.Ok? ==> |r.value| == |chunk|
                        && forall i :: 0 <= i < |chunk| ==> r.value[i] == Lookup(known, chunk[i])
    {
      match fails(requests) {
        case None =>
          r := Ok(seq(|chunk|, i requires 0 <= i < |chunk| => Lookup(known, chunk[i])));
        case Some(transient) =>
          r := if transient then Transient else Rejected;
      }
      requests, sizes := requests + 1, sizes + [|chunk|];
    }
  }

  /** The next n answers of a judge that has answered from times before. */
  function Issue(nextToken: nat -> Option<Token>, from: nat, n: nat): (r: seq<Option<Token>>)
    ensures |r| == n && forall i :: 0 <= i < n ==> r[i] == nextToken(from + i)
  {
    seq(n, i requires 0 <= i => nextToken(from + i))
  }

  function Zip<A, B>(a: seq<A>, b: seq<B>): (r: seq<(A, B)>)
    requires |a| == |b|
    ensures |r| == |a| && forall i :: 0 <= i < |a| ==> r[i] == (a[i], b[i])
  {
    seq(|a|, i requires 0 <= i < |a| => (a[i], b[i]))
  }

  /** What Judge0 reports for a token, under that token. */
  function Lookup(known: map<Token, Judge0Result>, token: Token): Option<Judge0Result> {
    if token in known && token != "" then Some(known[token].(token := token)) else None
  }

  /** What a fetch of tokens yields: an entry for each of them that Judge0 reports. */
  function Fetched(known: map<Token, Judge0Result>, tokens: seq<Token>): map<Token, Judge0Result> {
    map t | t in tokens && Lookup(known, t).Some? :: Lookup(known, t).value
  }

  /** The requests that n items need. */
  function Chunks(n: nat, batchSize: nat): nat
    requires batchSize > 0
  {
    if n == 0 then 0 else if n <= batchSize then 1 else 1 + Chunks(n - batchSize, batchSize)
  }

  /** All requests from first up to but not including end succeed. */
  ghost predicate AllSucceed(fails: nat -> Option<bool>, first: nat, end: nat) {
    forall k :: first <= k < end ==> fails(k) == None
  }

  /** The requests since then carried between one item and a batch of them each. */
  ghost predicate Extends(sizes: seq<nat>, before: seq<nat>, batchSize: nat) {
    before <= sizes && forall k :: |before| <= k < |sizes| ==> 1 <= sizes[k] <= batchSize
  }

  lemma OneMoreRequest(sizes: seq<nat>, before: seq<nat>, batchSize: nat, n: nat)
    ensures Extends(before, before, batchSize)
    ensures Extends(sizes, before, batchSize) && 1 <= n <= batchSize ==> Extends(sizes + [n], before, batchSize)
  {
  }

  /** One request for every batch begun: the quotient, rounded up. */
  lemma {:induction false} ChunksAre(n: nat, batchSize: nat)
    requires batchSize > 0
    ensures (Chunks(n, batchSize) - 1) * batchSize < n <= Chunks(n, batchSize) * batchSize
            || n == Chunks(n, batchSize) == 0
  {
    if n > batchSize {
      ChunksAre(n - batchSize, batchSize);
      var c := Chunks(n - batchSize, batchSize);
      assert (c + 1) * batchSize == c * batchSize + batchSize;
      assert c * batchSize == (c - 1) * batchSize + batchSize;
    }
  }

  lemma NoChunks(batchSize: nat)
    requires batchSize > 0
    ensures Chunks(0, batchSize) == 0
  {
  }

  lemma ChunkStep(n: nat, start: nat, batchSize: nat)
    requires batchSize > 0 && start < n
    ensures var end := if start + batchSize < n then start + batchSize else n;
            Chunks(n - start, batchSize) == 1 + Chunks(n - end, batchSize)
  {
  }

  lemma IssueAppend(nextToken: nat -> Option<Token>, from: nat, n: nat, m: nat)
    ensures Issue(nextToken, from, n) + Issue(nextToken, from + n, m) == Issue(nextToken, from, n + m)
  {
  }

  lemma ZipAppend<A, B>(a: seq<A>, start: nat, end: nat, x: seq<B>, y: seq<B>)
    requires start <= end <= |a| && |x| == start && |y| == end - start
    ensures Zip(a[..start], x) + Zip(a[start..end], y) == Zip(a[..end], x + y)
  {
    hide Zip;
    var both := Zip(a[..start], x) + Zip(a[start..end], y);
    forall i | 0 <= i < end ensures both[i] == Zip(a[..end], x + y)[i] {
      if i < start {
        assert both[i] == Zip(a[..start], x)[i];
      } else {
        assert both[i] == Zip(a[start..end], y)[i - start];
      }
    }
  }

  /** One more batch issued and recorded. */
  lemma BatchAppend<Payload>(nextToken: nat -> Option<Token>, issued: seq<(Payload, Option<Token>)>,
                             submissions: seq<Payload>, start: nat, end: nat, tokens: seq<Option<Token>>,
                             more: seq<Option<Token>>)
    requires start <= end <= |submissions| && tokens == Issue(nextToken, |issued|, start)
    requires more == Issue(nextToken, |issued| + start, end - start)
    ensures tokens + more == Issue(nextToken, |issued|, end)
    ensures issued + Zip(submissions[..start], tokens) + Zip(submissions[start..end], more)
         == issued + Zip(submissions[..end], tokens + more)
  {
    hide Issue, Zip;
    IssueAppend(nextToken, |issued|, start, end - start);
    ZipAppend(submissions, start, end, tokens, more);
    assert issued + (Zip(submissions[..start], tokens) + Zip(submissions[start..end], more))
        == issued + Zip(submissions[..start], tokens) + Zip(submissions[start..end], more);
  }

  /** submit_batch. On success position i holds the token Judge0 issued for submission i, whatever
      the batch size; it fails exactly when one of the requests it needs fails. */
  method SubmitBatch<Payload>(judge: Judge0<Payload>, submissions: seq<Payload>, batchSize: nat)
    returns (r: Reply<seq<Option<Token>>>)
    requires batchSize > 0
    modifies judge
    ensures r.Ok? ==> |r.value| == |submissions|
                      && forall i :: 0 <= i < |submissions| ==> r.value[i] == judge.nextToken(|old(judge.issued)| + i)
    ensures Extends(judge.sizes, old(judge.sizes), batchSize)
    ensures r.Ok? ==> r.value == Issue(judge.nextToken, |old(judge.issued)|, |submissions|)
                      && judge.issued == old(judge.issued) + Zip(submissions, r.value)
    ensures r.Ok? <==> AllSucceed(judge.fails, old(judge.requests),
                                  old(judge.requests) + Chunks(|submissions|, batchSize))
  {
    hide Issue, Zip, Chunks, Extends;
    NoChunks(batchSize);
    OneMoreRequest([], judge.sizes, batchSize, 0);
    var tokens: seq<Option<Token>> := [];
    var start := 0;
    while start < |submissions|
      invariant 0 <= start <= |submissions| && |tokens| == start
      invariant tokens == Issue(judge.nextToken, |old(judge.issued)|, start)
      invariant judge.issued == old(judge.issued) + Zip(submissions[..start], tokens)
      invariant old(judge.requests) <= judge.requests && Extends(judge.sizes, old(judge.sizes), batchSize)
      invariant AllSucceed(judge.fails, old(judge.requests), judge.requests)
      invariant judge.requests + Chunks(|submissions| - start, batchSize)
                == old(judge.requests) + Chunks(|submissions|, batchSize)
    {
      var end := if start + batchSize < |submissions| then start + batchSize else |submissions|;
      ChunkStep(|submissions|, start, batchSize);
      OneMoreRequest(judge.sizes, old(judge.sizes), batchSize, end - start);
      var items := judge.PostBatch(submissions[start..end]);
      match items {
        case Ok(more) =>
          BatchAppend(judge.nextToken, old(judge.issued), submissions, start, end, tokens, more);
          tokens := tokens + more;
        case Transient =>
          assert judge.fails(judge.requests - 1) != None;
          return Transient;
        case Rejected =>
          assert judge.fails(judge.requests - 1) != None;
          return Rejected;
      }
      start := end;
    }
    assert submissions[..start] == submissions;
    r := Ok(tokens);
  }

  lemma FetchAppend(known: map<Token, Judge0Result>, tokens: seq<Token>, k: nat)
    requires k < |tokens|
    ensures Fetched(known, tokens[..k + 1])
         == match Lookup(known, tokens[k])
            case None => Fetched(known, tokens[..k])
            case Some(item) => Fetched(known, tokens[..k])[item.token := item]
  {
    assert tokens[..k + 1] == tokens[..k] + [tokens[k]];
  }

  /** A fetch yields the tokens asked for that Judge0 knows, each with its own report. */
  lemma FetchedMeans(known: map<Token, Judge0Result>, tokens: seq<Token>)
    ensures forall t :: t in Fetched(known, tokens) <==> t in tokens && t in known && t != ""
    ensures forall t :: t in Fetched(known, tokens) ==> Fetched(known, tokens)[t] == known[t].(token := t)
    ensures Fetched(known, tokens[..0]) == map[]
  {
  }

  /** get_batch_results. On success the mapping holds exactly the tokens Judge0 reports, whatever
      the batch size. */
  method GetBatchResults<Payload>(judge: Judge0<Payload>, tokens: seq<Token>, batchSize: nat)
    returns (r: Reply<map<Token, Judge0Result>>)
    requires batchSize > 0
    modifies judge`requests, judge`sizes
    ensures r.Ok? ==> forall t :: t in r.value <==> t in tokens && t in judge.known && t != ""
    ensures r.Ok? ==> forall t :: t in r.value ==> r.value[t] == judge.known[t].(token := t)
    ensures Extends(judge.sizes, old(judge.sizes), batchSize)
    ensures r.Ok? ==> r.value == Fetched(judge.known, tokens)
    ensures r.Ok? <==> AllSucceed(judge.fails, old(judge.requests),
                                  old(judge.requests) + Chunks(|tokens|, batchSize))
  {
    hide Chunks, Extends, Fetched, Lookup;
    NoChunks(batchSize);
    OneMoreRequest([], judge.sizes, batchSize, 0);
    FetchedMeans(judge.known, tokens);
    var results: map<Token, Judge0Result> := map[];
    var start := 0;
    while start < |tokens|
      invariant 0 <= start <= |tokens|
      invariant results == Fetched(judge.known, tokens[..start])
      invariant old(judge.requests) <= judge.requests && Extends(judge.sizes, old(judge.sizes), batchSize)
      invariant AllSucceed(judge.fails, old(judge.requests), judge.requests)
      invariant judge.requests + Chunks(|tokens| - start, batchSize)
                == old(judge.requests) + Chunks(|tokens|, batchSize)
    {
      var end := if start + batchSize < |tokens| then start + batchSize else |tokens|;
      ChunkStep(|tokens|, start, batchSize);
      OneMoreRequest(judge.sizes, old(judge.sizes), batchSize, end - start);
      var items := judge.GetBatch(tokens[start..end]);
      match items {
        case Ok(more) =>
          for i := 0 to |more|
            invariant results == Fetched(judge.known, tokens[..start + i])
            modifies {}
          {
            FetchAppend(judge.known, tokens, start + i);
            if more[i].Some? {
              results := results[more[i].value.token := more[i].value];
            }
          }
        case Transient =>
          assert judge.fails(judge.requests - 1) != None;
          return Transient;
        case Rejected =>
          assert judge.fails(judge.requests - 1) != None;
          return Rejected;
      }
      start := end;
    }
    assert tokens[..start] == tokens;
    r := Ok(results);
  }
}
