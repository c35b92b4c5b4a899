/** What an export run does, stated over the specification of `main`. */
module ExportFacts {
  import opened Wrappers
  import opened Calendar
  import opened Query
  import opened Auth
  import opened Api
  import opened LogFile
  import opened Export

  /** Request k goes to reply k-1's `nextLink`, without parameters. */
  lemma RequestsFollowLinks<R>(c: seq<Reply<R>>, authorization: string, filter: string)
    requires |c| > 0 && forall i :: 0 <= i < |c| - 1 ==> Continues(c[i])
    ensures forall k :: 1 <= k < |c| ==>
              Requests(c, authorization, filter)[k] == Request(c[k - 1].body.value.nextLink.value, authorization, map[])
  {
  }

  /**
   * A script of n replies of which all but the last carry `nextLink` (and the
   * last does not) is fetched exactly n times, in order, and its pages'
   * records are written in that order.
   */
  lemma FetchesFollowChain<R>(before: string, env: Env<R>, ser: R -> string, n: nat)
    requires Valid(env.today) && 0 < n <= |env.replies|
    requires forall i :: 0 <= i < n - 1 ==> Continues(env.replies[i])
    requires !Continues(env.replies[n - 1])
    requires !GetToken(env.tokenReply).LookupFailed? && BuildFilter(env.today, env.days).Some?
    ensures Ends(env.replies) && Chain(env.replies) == env.replies[..n]
    ensures Records(Chain(env.replies)) == Records(env.replies[..n])
    ensures |Outcome(env).requests| == n
    ensures Outcome(env).requests[0].url == Endpoint
    ensures forall k :: 1 <= k < n ==>
              Outcome(env).requests[k].url == env.replies[k - 1].body.value.nextLink.value
              && Outcome(env).requests[k].params == map[]
    ensures env.replies[n - 1].body.Some? && Records(env.replies[..n]) != [] ==>
              FileAfter(before, env, ser) == JsonArray(Texts(Records(env.replies[..n]), ser))
  {
    ChainStopsAt(env.replies, n - 1);
    RequestsFollowLinks(Chain(env.replies), Authorization(GetToken(env.tokenReply)), BuildFilter(env.today, env.days).value);
    if env.replies[n - 1].body.Some? {
      assert Outcome(env).ended == Completed;
      CompletedRunWritesArray(before, env, ser);
    }
  }

  /** The facts a completed run gives about how far it got. */
  lemma CompletedReachedPages<R>(env: Env<R>)
    requires Valid(env.today) && Ends(env.replies) && Outcome(env).ended == Completed
    ensures !GetToken(env.tokenReply).LookupFailed? && BuildFilter(env.today, env.days).Some?
    ensures Chain(env.replies)[0].body.Some? && Chain(env.replies)[|Chain(env.replies)| - 1].body.Some?
  {
    var c := Chain(env.replies);
    if |c| > 1 {
      assert Continues(c[0]);
    }
  }

  /**
   * A completed run with at least one record leaves the JSON array of every
   * page's records in fetch order; with none it leaves `]` alone.
   */
  lemma CompletedRunWritesArray<R>(before: string, env: Env<R>, ser: R -> string)
    requires Valid(env.today) && Ends(env.replies) && Outcome(env).ended == Completed
    ensures var records := Records(Chain(env.replies));
            records != [] ==> FileAfter(before, env, ser) == JsonArray(Texts(records, ser))
    ensures Records(Chain(env.replies)) == [] ==> FileAfter(before, env, ser) == "]"
  {
    CompletedReachedPages(env);
    var records := Records(Chain(env.replies));
    if records != [] {
      FinalizedIsArray(Texts(records, ser));
    } else {
      assert Texts(records, ser) == [];
      FinalizedEmptyLosesBracket();
    }
  }

  /**
   * An error reply (any status but 200, body without `value` or `nextLink`)
   * after k replies that lead on: it is returned as a page, adds no record,
   * stops the loop, and the file is still finalised over the earlier pages.
   */
  lemma ErrorReplyEndsPagination<R>(before: string, env: Env<R>, ser: R -> string, k: nat)
    requires Valid(env.today) && k < |env.replies|
    requires forall i :: 0 <= i < k ==> Continues(env.replies[i])
    requires env.replies[k].status != 200 && env.replies[k].body == Some(ErrorBody())
    requires !GetToken(env.tokenReply).LookupFailed? && BuildFilter(env.today, env.days).Some?
    ensures Ends(env.replies)
    ensures Outcome(env).ended == Completed && |Outcome(env).requests| == k + 1
    ensures Records(Chain(env.replies)) == Records(env.replies[..k])
    ensures FileAfter(before, env, ser) == Finalized("[" + Entries(Texts(Records(env.replies[..k]), ser)))
  {
    ChainStopsAt(env.replies, k);
    var c := Chain(env.replies);
    assert c[..k] == env.replies[..k] && c[..k + 1] == c;
    RecordsExtend(c, k);
    assert PageRecords(c[k]) == [];
    if k > 0 {
      assert Continues(c[0]);
    }
  }

  /**
   * A reply that is not JSON escapes `main`: if it was the first, the file
   * keeps its old content; otherwise the file is left begun but never closed,
   * ending with a comma after the last record (or the bare `[`), not `]`.
   */
  lemma UndecodableReplyLeavesFileUnfinished<R>(before: string, env: Env<R>, ser: R -> string)
    requires Valid(env.today) && Ends(env.replies) && Outcome(env).ended == Raised(ResponseDecoding)
    ensures var c := Chain(env.replies);
            c[0].body.None? ==> FileAfter(before, env, ser) == before
    ensures var c := Chain(env.replies);
            c[0].body.Some? ==>
              && FileAfter(before, env, ser) == "[" + Entries(Texts(Records(c), ser))
              && FileAfter(before, env, ser)[|FileAfter(before, env, ser)| - 1] != ']'
  {
    var c := Chain(env.replies);
    var texts := Texts(Records(c), ser);
    EntriesEndInComma(texts);
  }

  /**
   * When the identity provider's reply has no token but does describe the
   * error, the run still fetches: every request carries `Bearer None`.
   */
  lemma TokenErrorStillFetches<R>(env: Env<R>)
    requires Valid(env.today) && Ends(env.replies) && BuildFilter(env.today, env.days).Some?
    requires "token_type" !in env.tokenReply && "error" in env.tokenReply && "error_description" in env.tokenReply
    ensures |Outcome(env).requests| >= 1
    ensures forall k :: 0 <= k < |Outcome(env).requests| ==> Outcome(env).requests[k].authorization == "Bearer None"
  {
    RequestsFollowLinks(Chain(env.replies), "Bearer None", BuildFilter(env.today, env.days).value);
  }

  /**
   * An identity-provider reply with neither `token_type` nor both `error` and
   * `error_description` makes `get_token` raise KeyError: nothing is fetched
   * and the file is not touched.
   */
  lemma IncompleteTokenErrorStopsRun<R>(before: string, env: Env<R>, ser: R -> string)
    requires Valid(env.today) && Ends(env.replies)
    requires "token_type" !in env.tokenReply && !("error" in env.tokenReply && "error_description" in env.tokenReply)
    ensures Outcome(env) == Run([], Raised(TokenLookup))
    ensures FileAfter(before, env, ser) == before
  {
  }

  /** The environment of the worked example: DAYS = 1 on 2024-01-10, one page holding records a and b. */
  function ExampleEnv<R>(a: R, b: R): Env<R> {
    Env(map["token_type" := "Bearer", "access_token" := "t"], Date(2024, 1, 10), 1,
        [Reply(200, Some(Body(Some([a, b]), None)))])
  }

  /** In the worked example exactly one request is sent, with the 2024-01-09..2024-01-12 filter, and the run completes. */
  lemma ExampleRequests<R>(a: R, b: R)
    ensures Ends(ExampleEnv(a, b).replies)
    ensures Outcome(ExampleEnv(a, b))
         == Run([FirstRequest("Bearer t", StartPrefix + "2024-01-09" + EndPrefix + "2024-01-12" + ChannelClause)],
                Completed)
  {
    var env := ExampleEnv(a, b);
    FilterExample();
    var c := Chain(env.replies);
    assert c == env.replies;
    assert GetToken(env.tokenReply) == Token("t");
    assert Authorization(Token("t")) == "Bearer t";
    var filter := StartPrefix + "2024-01-09" + EndPrefix + "2024-01-12" + ChannelClause;
    assert BuildFilter(env.today, env.days) == Some(filter);
    assert Requests(c, "Bearer t", filter) == [FirstRequest("Bearer t", filter)];
    assert Ending(c) == Completed;
  }

  /** The worked example gets a token and a filter, and its one reply is the whole chain. */
  lemma ExampleStarts<R>(a: R, b: R)
    ensures GetToken(ExampleEnv(a, b).tokenReply) == Token("t")
    ensures Valid(ExampleEnv(a, b).today) && BuildFilter(ExampleEnv(a, b).today, ExampleEnv(a, b).days).Some?
    ensures Ends(ExampleEnv(a, b).replies) && Chain(ExampleEnv(a, b).replies) == ExampleEnv(a, b).replies
  {
    assert Shift(Date(2024, 1, 10), 2).Some?;
    assert Shift(Date(2024, 1, 10), -1).Some?;
  }

  /** A single final page holding records a and b leaves their two-element array. */
  lemma ExamplePage<R>(before: string, a: R, b: R, ser: R -> string)
    ensures Written(before, [Reply(200, Some(Body(Some([a, b]), None)))], ser) == "[" + ser(a) + "," + ser(b) + "]"
  {
    var c := [Reply(200, Some(Body(Some([a, b]), None)))];
    var texts := Texts([a, b], ser);
    assert Records(c) == Records(c[..0]) + [a, b] == [a, b];
    assert Written(before, c, ser) == Finalized("[" + Entries(texts));
    assert texts == [ser(a), ser(b)];
    FinalizedIsArray(texts);
    assert Join(texts) == Join([ser(a)]) + "," + ser(b);
  }

  /** In the worked example the file ends as the array of the two records, whatever it held before. */
  lemma ExampleFile<R>(before: string, a: R, b: R, ser: R -> string)
    ensures Ends(ExampleEnv(a, b).replies)
    ensures FileAfter(before, ExampleEnv(a, b), ser) == "[" + ser(a) + "," + ser(b) + "]"
  {
    ExampleStarts(a, b);
    ExamplePage(before, a, b, ser);
  }
}
