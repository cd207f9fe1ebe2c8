/** The responder's built-in data: fourteen concept codes with their replies,
    the surface words that name each code, and nine default replies. */
module Vocabulary {
  import opened Selection

  const CrashReply := "Well, it never crashes on our system. It must have something\n" +
                      "to do with your system. Tell me more about your configuration."
  const SlowReply := "I think this has to do with your hardware. Upgrading your processor\n" +
                     "should solve all performance problems. Have you got a problem with\n" +
                     "our software?"
  const PerformanceReply := "Performance was quite adequate in all our tests. Are you running\n" +
                            "any other processes in the background?"
  const BugReply := "Well, you know, all software has some bugs. But our software engineers\n" +
                    "are working very hard to fix them. Can you describe the problem a bit\n" +
                    "further?"
  const WindowsReply := "This is a known bug to do with the Windows operating system. Please\n" +
                        "report it to Microsoft. There is nothing we can do about this."
  const MacReply := "This is a known bug to do with the Mac operating system. Please\n" +
                    "report it to Apple. There is nothing we can do about this."
  const CostReply := "The cost of our product is quite competitive. Have you looked around\n" +
                     "and really compared our features?"
  const InstallReply := "The installation is really quite straight forward. We have tons of\n" +
                        "wizards that do all the work for you. Have you read the installation\n" +
                        "instructions?"
  const MemoryReply := "If you read the system requirements carefully, you will see that the\n" +
                       "specified memory requirements are 1.5 giga byte. You really should\n" +
                       "upgrade your memory. Anything else you want to know?"
  const LinuxReply := "We take Linux support very seriously. But there are some problems.\n" +
                      "Most have to do with incompatible glibc versions. Can you be a bit\n" +
                      "more precise?"
  const BlueJReply := "Ahhh, BlueJ, yes. We tried to buy out those guys long ago, but\n" +
                      "they simply won't sell... Stubborn people they are. Nothing we can\n" +
                      "do about it, I'm afraid."
  const HelloReply := "Hi! Welcome to our tech support platform. We hope you enjoy your stay!"
  // The "/n" here is literal text, not a line break, as in the original.
  const JokeReply := "A computer scientist goes for a night out... /n" +
                     "... /n" +
                     "Yep. That's the joke."
  const NightshiftReply := "The animatronic characters here do get a bit quirky at night."

  /** Concept code -> reply, as fillResponseMap enters them. */
  const Responses: map<string, string> := map[
    "001" := CrashReply, "002" := SlowReply, "003" := PerformanceReply,
    "004" := BugReply, "005" := WindowsReply, "006" := MacReply,
    "007" := CostReply, "008" := InstallReply, "009" := MemoryReply,
    "010" := LinuxReply, "011" := BlueJReply, "012" := HelloReply,
    "013" := JokeReply, "014" := NightshiftReply]

  /** Surface word -> concept code, as fillSynonymMap enters them. */
  const Synonyms: map<string, string> := map[
    "crash" := "001", "crashes" := "001",
    "slow" := "002", "slowly" := "002",
    "performance" := "003",
    "bug" := "004", "buggy" := "004", "glitch" := "004",
    "windows" := "005",
    "mac" := "006", "osx" := "006",
    "expensive" := "007", "cost" := "007",
    "installation" := "008", "install" := "008",
    "memory" := "009", "ram" := "009",
    "linux" := "010",
    "bluej" := "011",
    "hello" := "012",
    "joke" := "013",
    "nightshift" := "014"]

  const Default0 := "That sounds odd. Could you describe that problem in more detail?"
  const Default1 := "No other customer has ever complained about this before. \n" +
                    "What is your system configuration?"
  const Default2 := "That sounds interesting. Tell me more..."
  const Default3 := "I need a bit more information on that."
  const Default4 := "Have you checked that you do not have a dll conflict?"
  const Default5 := "That is explained in the manual. Have you read the manual?"
  const Default6 := "Your description is a bit wishy-washy. Have you got an expert\n" +
                    "there with you who could describe this more precisely?"
  const Default7 := "That's not a bug, it's a feature!"
  const Default8 := "Could you elaborate on that?"

  /** The default replies in the order fillDefaultResponses adds them. */
  const Defaults: seq<string> :=
    [Default0, Default1, Default2, Default3, Default4, Default5, Default6, Default7, Default8]

  function BuiltIn(): Tables
  {
    Tables(Synonyms, Responses, Defaults)
  }

  /** Every code a built-in synonym names ("001" to "014") has a reply, and
      there are nine default replies, so the fallback always has a choice. */
  lemma BuiltInWellFormed()
    ensures WellFormed(BuiltIn())
    ensures |Defaults| == 9
  {
  }

  /** No two default replies share a text, so distinct default indices give
      distinct replies. */
  lemma DefaultsDistinct()
    ensures forall a, b :: 0 <= a < b < |Defaults| ==> Defaults[a] != Defaults[b]
  {
  }

  /** Every reply text, keyed or default, is non-empty. */
  lemma RepliesNonEmpty()
    ensures forall c :: c in Responses ==> Responses[c] != ""
    ensures forall i :: 0 <= i < |Defaults| ==> Defaults[i] != ""
  {
  }

  /** On the built-in tables every call returns a non-empty reply, on the
      lookup path and on the fallback path alike. */
  lemma BuiltInReplyNonEmpty(last: int, words: seq<string>, draws: seq<int>)
    requires CanServe(BuiltIn(), last, words, draws)
    ensures Respond(BuiltIn(), last, words, draws).text != ""
  {
    RepliesNonEmpty();
    FirstMatchIsResponse(BuiltIn(), words);
  }

  /** Words of one synonym family get one reply; an unknown word gets none. */
  lemma SynonymFamilies()
    ensures Resolve(BuiltIn(), "crash") == Resolve(BuiltIn(), "crashes") == Some(CrashReply)
    ensures Resolve(BuiltIn(), "bug") == Resolve(BuiltIn(), "buggy") == Resolve(BuiltIn(), "glitch") == Some(BugReply)
    ensures Resolve(BuiltIn(), "xyzzy") == None
  {
  }

  /** A word sharing a concept code with another gets the same reply. */
  lemma SynonymsShareReply(w1: string, w2: string)
    requires w1 in Synonyms && w2 in Synonyms && Synonyms[w1] == Synonyms[w2]
    ensures Resolve(BuiltIn(), w1) == Resolve(BuiltIn(), w2) != None
  {
  }
}
