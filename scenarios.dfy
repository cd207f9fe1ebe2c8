/** Calls on a freshly constructed responder, showing what its contracts
    promise a caller. */
module Scenarios {
  import opened Selection
  import Vocabulary
  import opened TechSupport

  /** "crash" and then "crashes" get the same reply, that of code "001". */
  method CrashThenCrashes() returns (first: string, second: string)
    ensures first == second == Vocabulary.Responses["001"]
  {
    var responder := new Responder();
    Vocabulary.SynonymFamilies();
    assert FirstMatch(Vocabulary.BuiltIn(), ["crash"]) == Some(Vocabulary.CrashReply);
    assert FirstMatch(Vocabulary.BuiltIn(), ["crashes"]) == Some(Vocabulary.CrashReply);
    first := responder.GenerateResponse(["crash"], []);
    second := responder.GenerateResponse(["crashes"], []);
  }

  /** Of several recognised words the first in input order wins; the
      unrecognised word before it is skipped. */
  method FirstRecognisedWordWins() returns (response: string)
    ensures response == Vocabulary.SlowReply
  {
    var words := ["xyzzy", "slow", "crash"];
    assert IsFirstResolving(Vocabulary.BuiltIn(), words, 1);
    FirstMatchFindsFirst(Vocabulary.BuiltIn(), words, 1);
    var responder := new Responder();
    response := responder.GenerateResponse(words, []);
  }

  /** Two unrecognised inputs in a row get two different default replies, and
      the first is never the default at index 0. */
  method UnknownWordTwice(draws1: seq<int>, draws2: seq<int>) returns (first: string, second: string)
    requires DrawsInRange(draws1, 9) && DrawsInRange(draws2, 9)
    requires HasFreshDraw(draws1, 0)
    requires exists a, b :: 0 <= a < b < |draws2| && draws2[a] != draws2[b]
    ensures first in Vocabulary.Defaults && second in Vocabulary.Defaults
    ensures first != Vocabulary.Defaults[0]
    ensures first != second
  {
    var responder := new Responder();
    Vocabulary.SynonymFamilies();
    Vocabulary.DefaultsDistinct();
    first := responder.GenerateResponse(["xyzzy"], draws1);
    second := responder.GenerateResponse(["xyzzy"], draws2);
  }
}
