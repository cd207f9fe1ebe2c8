/** The Responder object: the three tables it fills at construction, the index
    of the last default reply it gave, and the operation that produces a reply. */
module TechSupport {
  import opened Selection
  import Vocabulary

  class Responder {
    var responseMap: map<string, string>
    var synonymMap: map<string, string>
    var defaultResponses: seq<string>
    var lastDefaultResponseIndex: int

    /** The tables hold the built-in data, and the last default index is one
        of the default list's indices. */
    ghost predicate Valid()
      reads this
    {
      && responseMap == Vocabulary.Responses
      && synonymMap == Vocabulary.Synonyms
      && defaultResponses == Vocabulary.Defaults
      && 0 <= lastDefaultResponseIndex < |defaultResponses|
    }

    /** The three tables as one value. */
    function Snapshot(): Tables
      reads this
    {
      Tables(synonymMap, responseMap, defaultResponses)
    }

    /** Fills the tables. The last default index is never assigned in the
        original, so it keeps the integer field default 0: the first
        fallback can never pick index 0. */
    constructor ()
      ensures Valid()
      ensures Snapshot() == Vocabulary.BuiltIn()
      ensures lastDefaultResponseIndex == 0
    {
      responseMap := map[];
      synonymMap := map[];
      defaultResponses := [];
      lastDefaultResponseIndex := 0;
      new;
      FillResponseMap();
      FillSynonymMap();
      FillDefaultResponses();
    }

    /** A valid responder's tables are well formed: every synonym's code has a
        reply, and there are at least two default replies. */
    lemma ValidIsWellFormed()
      requires Valid()
      ensures WellFormed(Snapshot())
    {
    }

    /** Enters every concept code with its reply, one entry at a time (the
        entries are put into a local copy that is then stored). */
    method FillResponseMap()
      modifies this`responseMap
      ensures responseMap == old(responseMap) + Vocabulary.Responses
    {
      var table := responseMap;
      table := table["001" := Vocabulary.CrashReply];
      table := table["002" := Vocabulary.SlowReply];
      table := table["003" := Vocabulary.PerformanceReply];
      table := table["004" := Vocabulary.BugReply];
      table := table["005" := Vocabulary.WindowsReply];
      table := table["006" := Vocabulary.MacReply];
      table := table["007" := Vocabulary.CostReply];
      table := table["008" := Vocabulary.InstallReply];
      table := table["009" := Vocabulary.MemoryReply];
      table := table["010" := Vocabulary.LinuxReply];
      table := table["011" := Vocabulary.BlueJReply];
      table := table["012" := Vocabulary.HelloReply];
      table := table["013" := Vocabulary.JokeReply];
      table := table["014" := Vocabulary.NightshiftReply];
      assert table.Keys == responseMap.Keys + Vocabulary.Responses.Keys;
      forall c | c in table
        ensures table[c] == (responseMap + Vocabulary.Responses)[c]
      {
      }
      responseMap := table;
    }

    /** Enters every surface word with its concept code, one entry at a time
        (the entries are put into a local copy that is then stored). */
    method FillSynonymMap()
      modifies this`synonymMap
      ensures synonymMap == old(synonymMap) + Vocabulary.Synonyms
    {
      var table := synonymMap;
      table := table["crash" := "001"];
      table := table["crashes" := "001"];
      table := table["slow" := "002"];
      table := table["slowly" := "002"];
      table := table["performance" := "003"];
      table := table["bug" := "004"];
      table := table["buggy" := "004"];
      table := table["glitch" := "004"];
      table := table["windows" := "005"];
      table := table["mac" := "006"];
      table := table["osx" := "006"];
      table := table["expensive" := "007"];
      table := table["cost" := "007"];
      table := table["installation" := "008"];
      table := table["install" := "008"];
      table := table["memory" := "009"];
      table := table["ram" := "009"];
      table := table["linux" := "010"];
      table := table["bluej" := "011"];
      table := table["hello" := "012"];
      table := table["joke" := "013"];
      table := table["nightshift" := "014"];
      assert table.Keys == synonymMap.Keys + Vocabulary.Synonyms.Keys;
      forall w | w in table
        ensures table[w] == (synonymMap + Vocabulary.Synonyms)[w]
      {
      }
      synonymMap := table;
    }

    /** Appends the default replies, one at a time. */
    method FillDefaultResponses()
      modifies this`defaultResponses
      ensures defaultResponses == old(defaultResponses) + Vocabulary.Defaults
    {
      defaultResponses := defaultResponses + [Vocabulary.Default0];
      defaultResponses := defaultResponses + [Vocabulary.Default1];
      defaultResponses := defaultResponses + [Vocabulary.Default2];
      defaultResponses := defaultResponses + [Vocabulary.Default3];
      defaultResponses := defaultResponses + [Vocabulary.Default4];
      defaultResponses := defaultResponses + [Vocabulary.Default5];
      defaultResponses := defaultResponses + [Vocabulary.Default6];
      defaultResponses := defaultResponses + [Vocabulary.Default7];
      defaultResponses := defaultResponses + [Vocabulary.Default8];
    }

    /** Scans the words in order and returns the reply of the first one that
        resolves; only when none does is a default reply picked, which is the
        one change of state. `draws` are the values the random source returns. */
    method GenerateResponse(words: seq<string>, draws: seq<int>) returns (response: string)
      requires Valid()
      requires CanServe(Snapshot(), lastDefaultResponseIndex, words, draws)
      modifies this`lastDefaultResponseIndex
      ensures Valid()
      ensures Reply(response, lastDefaultResponseIndex) ==
              Respond(Snapshot(), old(lastDefaultResponseIndex), words, draws)
      ensures response != ""
    {
      Vocabulary.BuiltInReplyNonEmpty(lastDefaultResponseIndex, words, draws);
      for i := 0 to |words|
        invariant forall j :: 0 <= j < i ==> !Resolves(Snapshot(), words[j])
      {
        var reply := Resolve(Snapshot(), words[i]);
        if reply.Some? {
          FirstMatchFindsFirst(Snapshot(), words, i);
          return reply.value;
        }
      }
      FirstMatchNone(Snapshot(), words);
      response := PickDefaultResponse(draws);
    }

    /** Redraws an index until it differs from the last default index, then
        records it and returns that default reply. */
    method PickDefaultResponse(draws: seq<int>) returns (response: string)
      requires Valid()
      requires DrawsInRange(draws, |defaultResponses|)
      requires HasFreshDraw(draws, lastDefaultResponseIndex)
      modifies this`lastDefaultResponseIndex
      ensures Valid()
      ensures lastDefaultResponseIndex == FirstFresh(draws, old(lastDefaultResponseIndex))
      ensures lastDefaultResponseIndex != old(lastDefaultResponseIndex)
      ensures response == defaultResponses[lastDefaultResponseIndex]
    {
      ghost var stop :| 0 <= stop < |draws| && draws[stop] != lastDefaultResponseIndex;
      var k := 0;
      var index := draws[k];
      while index == lastDefaultResponseIndex
        invariant 0 <= k <= stop && index == draws[k]
        invariant forall j :: 0 <= j < k ==> draws[j] == lastDefaultResponseIndex
        decreases stop - k
      {
        k := k + 1;
        index := draws[k];
      }
      FirstFreshUnique(draws, lastDefaultResponseIndex, k);
      lastDefaultResponseIndex := index;
      response := defaultResponses[index];
    }
  }
}
