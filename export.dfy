/**
 * The export run of `main`: obtain a token, build the filter, fetch the
 * first page, begin the file, append the page's records, follow `nextLink`
 * page by page appending each page's records, and finalise the file.
 *
 * The server is a script: the replies it gives, in the order it gives them.
 * The run consumes them up to and including the first reply that does not
 * lead on (no `nextLink`, or a text that is not JSON).
 */
module Export {
  import opened Wrappers
  import opened Calendar
  import opened Query
  import opened Auth
  import opened Api
  import opened LogFile

  /** What the run takes from outside: the identity provider's reply, today's date, DAYS, the server's replies. */
  datatype Env<R> = Env(tokenReply: map<string, string>, today: Date, days: int, replies: seq<Reply<R>>)

  /** Where an exception escaped `main`. */
  datatype Stage = TokenLookup | DateOverflow | ResponseDecoding

  datatype Termination = Completed | Raised(stage: Stage)

  /** The requests sent, in order, and how the run ended. */
  datatype Run = Run(requests: seq<Request>, ended: Termination)

  /** A reply after which the loop fetches again: it decoded and carries `nextLink`. */
  predicate Continues<R>(reply: Reply<R>) {
    reply.body.Some? && reply.body.value.nextLink.Some?
  }

  /** Some reply of the script does not lead on, so the pagination loop stops. */
  predicate Ends<R>(replies: seq<Reply<R>>) {
    |replies| > 0 && (!Continues(replies[0]) || Ends(replies[1..]))
  }

  /** The replies the run consumes: every one that leads on, and the first one that does not. */
  function Chain<R>(replies: seq<Reply<R>>): (c: seq<Reply<R>>)
    requires Ends(replies)
    ensures 0 < |c| <= |replies| && c == replies[..|c|]
    ensures forall i :: 0 <= i < |c| - 1 ==> Continues(c[i])
    ensures !Continues(c[|c| - 1])
  {
    if !Continues(replies[0]) then [replies[0]] else [replies[0]] + Chain(replies[1..])
  }

  /** A script whose first k replies lead on and whose reply k does not is consumed up to k. */
  lemma {:induction false} ChainStopsAt<R>(replies: seq<Reply<R>>, k: nat)
    requires k < |replies| && !Continues(replies[k])
    requires forall i :: 0 <= i < k ==> Continues(replies[i])
    ensures Ends(replies)
    ensures Chain(replies) == replies[..k + 1]
    decreases k
  {
    if k > 0 {
      ChainStopsAt(replies[1..], k - 1);
      assert replies[..k + 1] == [replies[0]] + replies[1..][..k];
    }
  }

  /** The records a page contributes; a body without `value` contributes none (the KeyError is caught). */
  function BodyRecords<R>(page: Body<R>): seq<R> {
    if page.value.Some? then page.value.value else []
  }

  /** The records a reply contributes; an undecodable one contributes none. */
  function PageRecords<R>(reply: Reply<R>): seq<R> {
    if reply.body.Some? then BodyRecords(reply.body.value) else []
  }

  /** All records of the replies, page after page, in fetch order. */
  function Records<R>(c: seq<Reply<R>>): seq<R> {
    if c == [] then [] else Records(c[..|c| - 1]) + PageRecords(c[|c| - 1])
  }

  /** `json.dumps` of each record, in order. */
  function Texts<R>(rs: seq<R>, ser: R -> string): seq<string> {
    seq(|rs|, i requires 0 <= i < |rs| => ser(rs[i]))
  }

  function FirstRequest(authorization: string, filter: string): Request {
    Request(Endpoint, authorization, map["api-version" := ApiVersion, "$filter" := filter])
  }

  /** The first request, then one request per reply that leads on, to its `nextLink`, with no parameters. */
  function Requests<R>(c: seq<Reply<R>>, authorization: string, filter: string): (rs: seq<Request>)
    requires |c| > 0 && forall i :: 0 <= i < |c| - 1 ==> Continues(c[i])
    ensures |rs| == |c|
    ensures rs[0] == Request(Endpoint, authorization, map["api-version" := ApiVersion, "$filter" := filter])
  {
    [FirstRequest(authorization, filter)]
      + seq(|c| - 1, i requires 0 <= i < |c| - 1 && Continues(c[i]) => Request(c[i].body.value.nextLink.value, authorization, map[]))
  }

  /** The file once the records of replies c have been appended to `[`, before finalisation. */
  function Unfinished<R>(c: seq<Reply<R>>, ser: R -> string): string {
    "[" + Entries(Texts(Records(c), ser))
  }

  /** How a run that reached the first request ends: an undecodable last reply escapes `main`. */
  function Ending<R>(c: seq<Reply<R>>): Termination
    requires |c| > 0
  {
    if c[|c| - 1].body.None? then Raised(ResponseDecoding) else Completed
  }

  /**
   * The output file after the pages of chain c, given its content `before`.
   * The file is begun only once the first reply has decoded; it is finalised
   * only when the loop ends normally.
   */
  function Written<R>(before: string, c: seq<Reply<R>>, ser: R -> string): (r: string)
    requires |c| > 0
    ensures c[0].body.None? ==> r == before
    ensures c[0].body.Some? ==> |r| > 0 && (r[|r| - 1] == ']' <==> c[|c| - 1].body.Some?)
    ensures c[0].body.Some? && Records(c) != [] ==> r[0] == '['
  {
    if c[0].body.None? then before
    else
      if c[|c| - 1].body.None? then Unfinished(c, ser) else Finalized(Unfinished(c, ser))
  }

  /** The requests the run sends and how it ends. */
  function Outcome<R>(env: Env<R>): (r: Run)
    requires Valid(env.today) && Ends(env.replies)
    ensures r.ended == Raised(TokenLookup) <==> GetToken(env.tokenReply).LookupFailed?
    ensures r.requests == [] <==> r.ended == Raised(TokenLookup) || r.ended == Raised(DateOverflow)
    ensures r.requests != [] ==> |r.requests| == |Chain(env.replies)| && r.requests[0].url == Endpoint
  {
    var token := GetToken(env.tokenReply);
    if token.LookupFailed? then Run([], Raised(TokenLookup))
    else match BuildFilter(env.today, env.days)
      case None => Run([], Raised(DateOverflow))
      case Some(filter) =>
        var c := Chain(env.replies);
        Run(Requests(c, Authorization(token), filter), Ending(c))
  }

  /** The content of the output file after the run, given its content `before`. */
  function FileAfter<R>(before: string, env: Env<R>, ser: R -> string): (r: string)
    requires Valid(env.today) && Ends(env.replies)
    ensures Outcome(env).requests == [] ==> r == before
    ensures Outcome(env).requests != [] && Chain(env.replies)[0].body.Some? ==>
              |r| > 0 && (r[|r| - 1] == ']' <==> Outcome(env).ended == Completed)
  {
    if GetToken(env.tokenReply).LookupFailed? || BuildFilter(env.today, env.days).None? then before
    else Written(before, Chain(env.replies), ser)
  }

  /** `main`: token, filter, then the pages. */
  method Export<R>(file: OutputFile, env: Env<R>, ser: R -> string) returns (run: Run)
    requires Valid(env.today) && Ends(env.replies)
    modifies file
    ensures run == Outcome(env)
    ensures file.content == FileAfter(old(file.content), env, ser)
  {
    var token := GetToken(env.tokenReply);
    if token.LookupFailed? {
      return Run([], Raised(TokenLookup));
    }
    var authorization := Authorization(token);
    var filter := BuildFilter(env.today, env.days);
    if filter.None? {
      return Run([], Raised(DateOverflow));
    }
    var requests, ended := ExportPages(file, env.replies, authorization, filter.value, ser);
    run := Run(requests, ended);
  }

  /**
   * `main` from the first request on: fetch, begin the file, append, follow
   * `nextLink` while the current response has one, finalise.
   */
  method ExportPages<R>(file: OutputFile, replies: seq<Reply<R>>, authorization: string, filter: string, ser: R -> string)
    returns (requests: seq<Request>, ended: Termination)
    requires Ends(replies)
    modifies file
    ensures requests == Requests(Chain(replies), authorization, filter)
    ensures ended == Ending(Chain(replies))
    ensures file.content == Written(old(file.content), Chain(replies), ser)
  {
    ghost var c := Chain(replies);
    var response := RestApiRequest(replies[0]);
    if response.DecodeError? {
      requests := [FirstRequest(authorization, filter)];
      assert requests == Requests(c, authorization, filter);
      return requests, Raised(ResponseDecoding);
    }
    file.Begin();
    AppendPage(file, response.page, ser);
    assert Texts(Records(c[..0]), ser) == [];
    PageAppended(c, 0, ser);
    requests, ended := FollowLinks(file, replies, response.page, authorization, filter, ser);
    if ended == Completed {
      file.Finalize();
    }
  }

  /**
   * The `while 'nextLink' in response` loop: fetch each `nextLink` and append
   * that page, until a reply does not lead on. The file is left unfinished;
   * an undecodable reply ends the loop with the decoding error.
   */
  method FollowLinks<R>(file: OutputFile, replies: seq<Reply<R>>, first: Body<R>,
                        authorization: string, filter: string, ser: R -> string)
    returns (requests: seq<Request>, ended: Termination)
    requires Ends(replies) && replies[0].body == Some(first)
    requires file.content == Unfinished(Chain(replies)[..1], ser)
    modifies file
    ensures requests == Requests(Chain(replies), authorization, filter)
    ensures ended == Ending(Chain(replies))
    ensures file.content == Unfinished(Chain(replies), ser)
  {
    ghost var c := Chain(replies);
    var response: Response<R> := Returned(first);
    requests := [FirstRequest(authorization, filter)];
    var i := 1;
    while response.page.nextLink.Some?
      invariant 1 <= i <= |c|
      invariant response.Returned? && c[i - 1].body == Some(response.page)
      invariant requests == Requests(c[..i], authorization, filter)
      invariant file.content == Unfinished(c[..i], ser)
      decreases |c| - i
    {
      assert Continues(c[i - 1]) && i < |c| && replies[i] == c[i];
      RequestsExtend(c, i, authorization, filter);
      requests := requests + [Request(response.page.nextLink.value, authorization, map[])];
      response := RestApiRequest(replies[i]);
      if response.DecodeError? {
        UndecodableLast(c, i, ser);
        return requests, Raised(ResponseDecoding);
      }
      AppendPage(file, response.page, ser);
      PageAppended(c, i, ser);
      i := i + 1;
    }
    assert c[..i] == c;
    ended := Completed;
  }

  /** An undecodable reply i ends the chain there and adds no record. */
  lemma UndecodableLast<R>(c: seq<Reply<R>>, i: nat, ser: R -> string)
    requires i < |c| && c[i].body.None? && forall j :: 0 <= j < |c| - 1 ==> Continues(c[j])
    ensures c[..i + 1] == c && Records(c) == Records(c[..i])
    ensures Unfinished(c, ser) == Unfinished(c[..i], ser)
  {
    RecordsExtend(c, i);
    assert PageRecords(c[i]) == [];
  }

  lemma RequestsExtend<R>(c: seq<Reply<R>>, i: nat, authorization: string, filter: string)
    requires 1 <= i < |c| && forall j :: 0 <= j < |c| - 1 ==> Continues(c[j])
    ensures Requests(c[..i + 1], authorization, filter)
         == Requests(c[..i], authorization, filter) + [Request(c[i - 1].body.value.nextLink.value, authorization, map[])]
  {
  }

  lemma RecordsExtend<R>(c: seq<Reply<R>>, i: nat)
    requires i < |c|
    ensures Records(c[..i + 1]) == Records(c[..i]) + PageRecords(c[i])
  {
    assert c[..i + 1][..i] == c[..i];
  }

  /** Appending page i's records to a file holding pages 0..i-1 gives the file of pages 0..i. */
  lemma PageAppended<R>(c: seq<Reply<R>>, i: nat, ser: R -> string)
    requires i < |c| && c[i].body.Some?
    ensures Unfinished(c[..i], ser) + Entries(Texts(BodyRecords(c[i].body.value), ser)) == Unfinished(c[..i + 1], ser)
  {
    var done, page := Records(c[..i]), BodyRecords(c[i].body.value);
    RecordsExtend(c, i);
    assert Records(c[..i + 1]) == done + page;
    AppendStep(done, page, ser);
    var x, y := Entries(Texts(done, ser)), Entries(Texts(page, ser));
    assert "[" + x + y == "[" + (x + y);
  }

  /** One `with open('logs.json', 'a')` block: each record of the page's `value`, serialised, then a comma. */
  method AppendPage<R>(file: OutputFile, page: Body<R>, ser: R -> string)
    modifies file
    ensures file.content == old(file.content) + Entries(Texts(BodyRecords(page), ser))
  {
    if page.value.Some? {
      file.Append(Texts(page.value.value, ser));
    } else {
      assert Texts(BodyRecords(page), ser) == [];
    }
  }

  /** The file text of two batches of records is the text of the first followed by that of the second. */
  lemma AppendStep<R>(done: seq<R>, page: seq<R>, ser: R -> string)
    ensures Entries(Texts(done + page, ser)) == Entries(Texts(done, ser)) + Entries(Texts(page, ser))
  {
    assert Texts(done + page, ser) == Texts(done, ser) + Texts(page, ser);
    EntriesAppend(Texts(done, ser), Texts(page, ser));
  }
}
