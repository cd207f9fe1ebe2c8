/** Reply selection of the tech-support responder, stated over values.
    A reply is found in two lookups (word to concept code, code to reply text);
    when no input word resolves, a default reply is chosen by redrawing a random
    index until it differs from the index used last. The random source is an
    oracle: `draws` lists the values its successive draws return. */
module Selection {

  datatype Option<T> = None | Some(value: T)

  /** The three tables a responder fills once and afterwards only reads. */
  datatype Tables = Tables(
    synonyms: map<string, string>,   // surface word -> concept code
    responses: map<string, string>,  // concept code -> reply text
    defaults: seq<string>)           // replies used when no word is recognised

  /** Every code a synonym names has a reply, and a default index different
      from any given one always exists. */
  ghost predicate WellFormed(t: Tables)
  {
    && (forall w :: w in t.synonyms ==> t.synonyms[w] in t.responses)
    && |t.defaults| >= 2
  }

  /** The two-stage lookup of one word; a miss in either table gives None. */
  function Resolve(t: Tables, word: string): Option<string>
  {
    if word in t.synonyms && t.synonyms[word] in t.responses
    then Some(t.responses[t.synonyms[word]])
    else None
  }

  predicate Resolves(t: Tables, word: string)
  {
    Resolve(t, word).Some?
  }

  /** The reply of the first word, in input order, that resolves. */
  function FirstMatch(t: Tables, words: seq<string>): Option<string>
  {
    if words == [] then None
    else if Resolves(t, words[0]) then Resolve(t, words[0])
    else FirstMatch(t, words[1..])
  }

  /** Position i holds the first word of the input that resolves. */
  ghost predicate IsFirstResolving(t: Tables, words: seq<string>, i: int)
  {
    && 0 <= i < |words|
    && Resolves(t, words[i])
    && forall j :: 0 <= j < i ==> !Resolves(t, words[j])
  }

  /** The first resolving word decides the reply. */
  lemma {:induction false} FirstMatchFindsFirst(t: Tables, words: seq<string>, i: int)
    requires IsFirstResolving(t, words, i)
    ensures FirstMatch(t, words) == Resolve(t, words[i])
  {
    if i > 0 {
      assert !Resolves(t, words[0]);
      forall j | 0 <= j < i - 1
        ensures !Resolves(t, words[1..][j])
      {
        assert words[1..][j] == words[j + 1];
      }
      FirstMatchFindsFirst(t, words[1..], i - 1);
    }
  }

  /** No reply is found exactly when no word of the input resolves. */
  lemma {:induction false} FirstMatchNone(t: Tables, words: seq<string>)
    ensures FirstMatch(t, words) == None <==> forall i :: 0 <= i < |words| ==> !Resolves(t, words[i])
  {
    if words != [] {
      FirstMatchNone(t, words[1..]);
      if !Resolves(t, words[0]) {
        forall i | 0 < i < |words|
          ensures words[i] == words[1..][i - 1]
        {
        }
      }
    }
  }

  /** Once a word has resolved, the words after it are never examined. */
  lemma {:induction false} FirstMatchIgnoresLaterWords(t: Tables, words: seq<string>, later: seq<string>)
    requires FirstMatch(t, words).Some?
    ensures FirstMatch(t, words + later) == FirstMatch(t, words)
  {
    assert (words + later)[0] == words[0];
    if !Resolves(t, words[0]) {
      assert (words + later)[1..] == words[1..] + later;
      FirstMatchIgnoresLaterWords(t, words[1..], later);
    }
  }

  /** A word that does not resolve is skipped and does not stop the scan. */
  lemma {:induction false} FirstMatchSkipsUnresolved(t: Tables, before: seq<string>, w: string, after: seq<string>)
    requires !Resolves(t, w)
    ensures FirstMatch(t, before + [w] + after) == FirstMatch(t, before + after)
  {
    if before == [] {
      assert before + [w] + after == [w] + after;
      assert ([w] + after)[1..] == after;
      assert before + after == after;
    } else {
      assert (before + [w] + after)[0] == (before + after)[0] == before[0];
      assert (before + [w] + after)[1..] == before[1..] + [w] + after;
      assert (before + after)[1..] == before[1..] + after;
      FirstMatchSkipsUnresolved(t, before[1..], w, after);
    }
  }

  /** A reply found by the scan is a text of the response table. */
  lemma {:induction false} FirstMatchIsResponse(t: Tables, words: seq<string>)
    ensures FirstMatch(t, words).Some? ==> FirstMatch(t, words).value in t.responses.Values
  {
    if words != [] && !Resolves(t, words[0]) {
      FirstMatchIsResponse(t, words[1..]);
    }
  }

  /** The random source returns indices of the default list only. */
  predicate DrawsInRange(draws: seq<int>, n: int)
  {
    forall k :: 0 <= k < |draws| ==> 0 <= draws[k] < n
  }

  /** Some draw differs from the index used last, so the redrawing stops. */
  predicate HasFreshDraw(draws: seq<int>, last: int)
  {
    exists k :: 0 <= k < |draws| && draws[k] != last
  }

  /** The index the redrawing loop settles on: the first draw that differs
      from `last`, every draw before it being equal to `last`. */
  function FirstFresh(draws: seq<int>, last: int): (index: int)
    requires HasFreshDraw(draws, last)
    ensures index != last
    ensures exists k :: 0 <= k < |draws| && draws[k] == index && forall j :: 0 <= j < k ==> draws[j] == last
  {
    if draws[0] != last then draws[0]
    else
      assert HasFreshDraw(draws[1..], last) by {
        var k :| 0 <= k < |draws| && draws[k] != last;
        assert draws[1..][k - 1] == draws[k];
      }
      var index := FirstFresh(draws[1..], last);
      assert exists k :: 0 <= k < |draws| && draws[k] == index && forall j :: 0 <= j < k ==> draws[j] == last by {
        var k :| 0 <= k < |draws[1..]| && draws[1..][k] == index && forall j :: 0 <= j < k ==> draws[1..][j] == last;
        assert draws[k + 1] == index;
        forall j | 0 <= j < k + 1
          ensures draws[j] == last
        {
          if j > 0 {
            assert draws[j] == draws[1..][j - 1];
          }
        }
      }
      index
  }

  /** A draw that differs from `last` after a run of draws equal to it is the
      one the redrawing loop picks. */
  lemma FirstFreshUnique(draws: seq<int>, last: int, k: int)
    requires 0 <= k < |draws| && draws[k] != last
    requires forall j :: 0 <= j < k ==> draws[j] == last
    ensures HasFreshDraw(draws, last) && FirstFresh(draws, last) == draws[k]
  {
  }

  /** The reply of one call and the last-default index after it. */
  datatype Reply = Reply(text: string, last: int)

  /** The random source can serve a call from state `last`. */
  predicate CanServe(t: Tables, last: int, words: seq<string>, draws: seq<int>)
  {
    && DrawsInRange(draws, |t.defaults|)
    && (FirstMatch(t, words).None? ==> HasFreshDraw(draws, last))
  }

  /** What one call of generateResponse returns, and the state it leaves. */
  function Respond(t: Tables, last: int, words: seq<string>, draws: seq<int>): (r: Reply)
    requires CanServe(t, last, words, draws)
    ensures FirstMatch(t, words).Some? ==> r.text == FirstMatch(t, words).value && r.last == last
    ensures FirstMatch(t, words).None? ==>
      && 0 <= r.last < |t.defaults|
      && r.last != last
      && r.text == t.defaults[r.last]
  {
    match FirstMatch(t, words)
    case Some(reply) => Reply(reply, last)
    case None =>
      var index := FirstFresh(draws, last);
      Reply(t.defaults[index], index)
  }

  /** A recognised input gets the same reply whatever the state and the random
      source, and leaves the state as it was. */
  lemma MatchingReplyIgnoresState(t: Tables, last1: int, last2: int, words: seq<string>, draws1: seq<int>, draws2: seq<int>)
    requires FirstMatch(t, words).Some?
    requires CanServe(t, last1, words, draws1) && CanServe(t, last2, words, draws2)
    ensures Respond(t, last1, words, draws1).text == Respond(t, last2, words, draws2).text
    ensures Respond(t, last1, words, draws1).last == last1
  {
  }

  /** One call of a session: the input words and the draws the random source
      would return during it. */
  datatype Request = Request(words: seq<string>, draws: seq<int>)

  /** Every call of the session can be served from the state the calls before
      it leave. */
  predicate Servable(t: Tables, last: int, qs: seq<Request>)
    decreases |qs|
  {
    qs == [] ||
    (&& CanServe(t, last, qs[0].words, qs[0].draws)
     && Servable(t, Respond(t, last, qs[0].words, qs[0].draws).last, qs[1..]))
  }

  /** The replies of a sequence of calls on one responder. */
  function Session(t: Tables, last: int, qs: seq<Request>): (rs: seq<Reply>)
    requires Servable(t, last, qs)
    ensures |rs| == |qs|
    decreases |qs|
  {
    if qs == [] then []
    else
      var r := Respond(t, last, qs[0].words, qs[0].draws);
      [r] + Session(t, r.last, qs[1..])
  }

  /** The last-default index at the start of call i. */
  function LastBefore(t: Tables, last: int, qs: seq<Request>, i: int): int
    requires Servable(t, last, qs) && 0 <= i <= |qs|
  {
    if i == 0 then last else Session(t, last, qs)[i - 1].last
  }

  /** Call i of a session is one call of generateResponse from the state the
      calls before it left. */
  lemma {:induction false} SessionStep(t: Tables, last: int, qs: seq<Request>, i: int)
    requires Servable(t, last, qs) && 0 <= i < |qs|
    ensures CanServe(t, LastBefore(t, last, qs, i), qs[i].words, qs[i].draws)
    decreases i
    ensures Session(t, last, qs)[i] == Respond(t, LastBefore(t, last, qs, i), qs[i].words, qs[i].draws)
  {
    if i > 0 {
      var r := Respond(t, last, qs[0].words, qs[0].draws);
      SessionStep(t, r.last, qs[1..], i - 1);
      assert Session(t, last, qs)[i] == Session(t, r.last, qs[1..])[i - 1];
      assert qs[1..][i - 1] == qs[i];
      if i > 1 {
        assert Session(t, last, qs)[i - 1] == Session(t, r.last, qs[1..])[i - 2];
      }
      assert LastBefore(t, last, qs, i) == LastBefore(t, r.last, qs[1..], i - 1);
    }
  }

  /** Calls whose input resolves leave the last-default index alone. */
  lemma {:induction false} MatchesKeepIndex(t: Tables, last: int, qs: seq<Request>, i: int, j: int)
    requires Servable(t, last, qs) && 0 <= i <= j <= |qs|
    requires forall k :: i <= k < j ==> FirstMatch(t, qs[k].words).Some?
    ensures LastBefore(t, last, qs, j) == LastBefore(t, last, qs, i)
  {
    if i < j {
      MatchesKeepIndex(t, last, qs, i, j - 1);
      SessionStep(t, last, qs, j - 1);
    }
  }

  /** Two fallback calls with only recognised inputs between them never pick
      the same default index; with no repeated default text, never the same
      reply. */
  lemma FallbacksNeverRepeat(t: Tables, last: int, qs: seq<Request>, i: int, j: int)
    requires Servable(t, last, qs) && 0 <= i < j < |qs|
    requires FirstMatch(t, qs[i].words).None? && FirstMatch(t, qs[j].words).None?
    requires forall k :: i < k < j ==> FirstMatch(t, qs[k].words).Some?
    ensures Session(t, last, qs)[i].last != Session(t, last, qs)[j].last
    ensures (forall a, b :: 0 <= a < b < |t.defaults| ==> t.defaults[a] != t.defaults[b]) ==>
      Session(t, last, qs)[i].text != Session(t, last, qs)[j].text
  {
    MatchesKeepIndex(t, last, qs, i + 1, j);
    SessionStep(t, last, qs, i);
    SessionStep(t, last, qs, j);
  }

  /** The first fallback of a session never picks the index the session
      started from. */
  lemma FirstFallbackAvoidsStart(t: Tables, last: int, qs: seq<Request>, j: int)
    requires Servable(t, last, qs) && 0 <= j < |qs|
    requires FirstMatch(t, qs[j].words).None?
    requires forall k :: 0 <= k < j ==> FirstMatch(t, qs[k].words).Some?
    ensures Session(t, last, qs)[j].last != last
  {
    MatchesKeepIndex(t, last, qs, 0, j);
    SessionStep(t, last, qs, j);
  }

  /** With exactly two default replies and a start index of 0, a run of
      fallbacks alternates: index 1, then 0, then 1, and so on. */
  lemma {:induction false} TwoDefaultsAlternate(t: Tables, qs: seq<Request>, i: int)
    requires |t.defaults| == 2
    requires Servable(t, 0, qs) && 0 <= i < |qs|
    requires forall k :: 0 <= k < |qs| ==> FirstMatch(t, qs[k].words).None?
    ensures Session(t, 0, qs)[i].last == (if i % 2 == 0 then 1 else 0)
    ensures Session(t, 0, qs)[i].text == t.defaults[if i % 2 == 0 then 1 else 0]
  {
    SessionStep(t, 0, qs, i);
    if i > 0 {
      TwoDefaultsAlternate(t, qs, i - 1);
    }
  }
}
