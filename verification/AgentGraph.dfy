/**
 The corrective agent graph (app/agents/graph.py): retrieve, grade, an optional rewrite with a back edge to
 retrieve, and generate.  Retrieval results, grader verdicts and rewritten queries are arbitrary inputs, one
 per visit of a node; string primitives of Python are parameters.
 */
module AgentGraph {

  /** `str.strip`, `str.lower` and `len(s.split())`. */
  datatype Text = Text(strip: string -> string, lower: string -> string, words: string -> nat)

  datatype Message = DictMessage(role: string, content: string) | ObjectMessage(content: string)

  /** The part of `AgentState` that the nodes read and write; `messages` ends with the user's message. */
  datatype State = State(
    messages: seq<Message>, query: string, context: string,
    rewriteCount: nat, isRelevant: bool, availableDocuments: seq<string>)

  /** What the outside answers at the n-th visit of a node. */
  datatype World = World(
    context: nat -> string, documents: nat -> seq<string>, verdict: nat -> bool, rewrite: nat -> string)

  datatype Settings = Settings(enableQueryRewrite: bool)

  const GREETINGS := {
    "hi", "hello", "hey", "help", "who are you", "good morning", "good evening", "how are you", "thanks", "thank you"
  }
  /** The router's own list lacks "how are you". */
  const ROUTER_GREETINGS := GREETINGS - {"how are you"}

  // ---------------------------------------------------------------- Nodes

  /** `_extract_query`: the query field if it is not empty, else the newest user or object message. */
  function LastUserText(messages: seq<Message>): string
    decreases |messages|
  {
    if messages == [] then ""
    else
      var m := messages[|messages| - 1];
      if m.DictMessage? && m.role != "user" then LastUserText(messages[..|messages| - 1]) else m.content
  }

  function ExtractQuery(s: State): string {
    if s.query != "" then s.query else LastUserText(s.messages)
  }

  /** The message is the user's, or an object of the chat library. */
  predicate Speaks(m: Message) {
    m.ObjectMessage? || m.role == "user"
  }

  /** The newest such message gives the query; without one it is empty. */
  lemma {:induction false} LastUserTextIs(messages: seq<Message>, k: int)
    requires -1 <= k < |messages| && (k >= 0 ==> Speaks(messages[k]))
    requires forall i :: k < i < |messages| ==> !Speaks(messages[i])
    ensures LastUserText(messages) == if k < 0 then "" else messages[k].content
    decreases |messages|
  {
    if k < |messages| - 1 {
      LastUserTextIs(messages[..|messages| - 1], k);
    }
  }

  predicate IsGreeting(tx: Text, query: string) {
    var clean := tx.lower(tx.strip(query));
    clean in GREETINGS || (tx.words(clean) <= 2 && StartsGreeting(clean))
  }

  predicate StartsGreeting(s: string) {
    "hi" <= s || "hello" <= s || "hey" <= s
  }

  datatype Branch = NoQuery | Greeting | Search

  function RetrieveBranch(tx: Text, s: State): Branch {
    var q := tx.strip(ExtractQuery(s));
    if q == "" then NoQuery else if IsGreeting(tx, q) then Greeting else Search
  }

  function Retrieve(tx: Text, w: World, visit: nat, s: State): State {
    var q := tx.strip(ExtractQuery(s));
    match RetrieveBranch(tx, s)
    case NoQuery => s.(context := "", isRelevant := false, availableDocuments := [])
    case Greeting => s.(context := "", query := q, rewriteCount := 0, isRelevant := true, availableDocuments := [])
    case Search => s.(context := w.context(visit), query := q, availableDocuments := w.documents(visit))
  }

  /** Every grader first rejects contexts of fewer than 30 characters. */
  function Grade(tx: Text, w: World, visit: nat, s: State): State {
    s.(isRelevant := |tx.strip(s.context)| >= 30 && w.verdict(visit))
  }

  function Rewrite(tx: Text, w: World, visit: nat, s: State): State {
    s.(query := tx.strip(w.rewrite(visit)), rewriteCount := s.rewriteCount + 1)
  }

  /** `decide_to_generate`. */
  predicate GoesToGenerate(tx: Text, cfg: Settings, s: State) {
    var q := tx.lower(tx.strip(s.query));
    !cfg.enableQueryRewrite || s.isRelevant || s.rewriteCount >= 1 || s.availableDocuments == []
    || q in ROUTER_GREETINGS || tx.words(q) <= 2
  }

  /** What generate builds its prompt from; the history of messages is passed on unchanged. */
  datatype Prompt = GreetingPrompt | ContextPrompt(context: string, documents: seq<string>)

  function GeneratePrompt(tx: Text, s: State): Prompt {
    if IsGreeting(tx, ExtractQuery(s)) then GreetingPrompt
    else ContextPrompt(if |s.context| > 3000 then s.context[..3000] else s.context, s.availableDocuments)
  }

  // ---------------------------------------------------------------- The compiled graph

  datatype Node = RETRIEVE | GRADE | REWRITE | GENERATE | END

  /** The graph about to run `node`; `visit` counts the retrievals so far. */
  datatype Config = Config(node: Node, visit: nat, s: State)

  function Step(tx: Text, w: World, cfg: Settings, c: Config): Config {
    match c.node
    case RETRIEVE => Config(GRADE, c.visit + 1, Retrieve(tx, w, c.visit, c.s))
    case GRADE =>
      var s := Grade(tx, w, c.visit, c.s);
      Config(if GoesToGenerate(tx, cfg, s) then GENERATE else REWRITE, c.visit, s)
    case REWRITE => Config(RETRIEVE, c.visit, Rewrite(tx, w, c.visit, c.s))
    case GENERATE => Config(END, c.visit, c.s)
    case END => c
  }

  /** After the second retrieval the counter is positive or no documents are available: the router generates. */
  predicate Settled(s: State) {
    s.rewriteCount >= 1 || s.availableDocuments == []
  }

  /** The steps that may still follow. */
  function Rank(c: Config): nat {
    match c.node
    case END => 0
    case GENERATE => 1
    case GRADE => if Settled(c.s) then 2 else 6
    case RETRIEVE => if c.s.rewriteCount >= 1 then 3 else 7
    case REWRITE => 4
  }

  /** Every step descends, from every state a checkpoint may hold, although a greeting resets the counter. */
  lemma StepDescends(tx: Text, w: World, cfg: Settings, c: Config)
    requires c.node != END
    ensures Rank(Step(tx, w, cfg, c)) < Rank(c)
  {
  }

  /** The nodes visited and the final configuration. */
  function Run(tx: Text, w: World, cfg: Settings, c: Config): (r: (seq<Node>, Config))
    decreases Rank(c)
  {
    if c.node == END then ([], c)
    else
      StepDescends(tx, w, cfg, c);
      var (path, final) := Run(tx, w, cfg, Step(tx, w, cfg, c));
      ([c.node] + path, final)
  }

  /** `chat_stream` starts a turn: its inputs overwrite the checkpoint, which keeps two leftovers. */
  function Turn(history: seq<Message>, query: string, leftRelevant: bool, leftDocuments: seq<string>): Config {
    Config(RETRIEVE, 0, State(history + [DictMessage("user", query)], query, "", 0, leftRelevant, leftDocuments))
  }

  const STRAIGHT := [RETRIEVE, GRADE, GENERATE]
  const CORRECTED := [RETRIEVE, GRADE, REWRITE, RETRIEVE, GRADE, GENERATE]

  lemma RunEnd(tx: Text, w: World, cfg: Settings, c: Config)
    requires c.node == GENERATE
    ensures Run(tx, w, cfg, c) == ([GENERATE], c.(node := END))
  {
    assert [GENERATE] + [] == [GENERATE];
  }

  /** From a settled grading the graph goes straight to generate. */
  lemma RunSettled(tx: Text, w: World, cfg: Settings, c: Config)
    requires c.node == GRADE && Settled(c.s)
    ensures Run(tx, w, cfg, c) == ([GRADE, GENERATE], Config(END, c.visit, Grade(tx, w, c.visit, c.s)))
  {
    RunEnd(tx, w, cfg, Step(tx, w, cfg, c));
    assert [GRADE] + [GENERATE] == [GRADE, GENERATE];
  }

  /** The first routing decision fixes the whole path, from whatever state the graph is entered. */
  lemma PathByRouter(tx: Text, w: World, cfg: Settings, c: Config)
    requires c.node == RETRIEVE
    ensures Run(tx, w, cfg, c).0 ==
            if Step(tx, w, cfg, Step(tx, w, cfg, c)).node == GENERATE then STRAIGHT else CORRECTED
  {
    var c2 := Step(tx, w, cfg, Step(tx, w, cfg, c));
    if c2.node == GENERATE {
      RunEnd(tx, w, cfg, c2);
      assert [RETRIEVE] + ([GRADE] + [GENERATE]) == STRAIGHT;
    } else {
      var c4 := Step(tx, w, cfg, Step(tx, w, cfg, c2));
      RunSettled(tx, w, cfg, c4);
      assert Run(tx, w, cfg, c2).0 == [REWRITE] + ([RETRIEVE] + [GRADE, GENERATE]);
      assert [RETRIEVE] + ([GRADE] + ([REWRITE] + ([RETRIEVE] + [GRADE, GENERATE]))) == CORRECTED;
    }
  }

  /** The cleaned query `clean` counts as a greeting. */
  ghost predicate Greets(tx: Text, clean: string) {
    || clean == "hi" || clean == "hello" || clean == "hey" || clean == "help" || clean == "who are you"
    || clean == "good morning" || clean == "good evening" || clean == "how are you"
    || clean == "thanks" || clean == "thank you"
    || (tx.words(clean) <= 2 && (clean[..Min(2, |clean|)] == "hi" || clean[..Min(5, |clean|)] == "hello"
                                 || clean[..Min(3, |clean|)] == "hey"))
  }

  function Min(a: nat, b: nat): nat {
    if a < b then a else b
  }

  lemma GreetingIff(tx: Text, query: string)
    ensures IsGreeting(tx, query) <==> Greets(tx, tx.lower(tx.strip(query)))
  {
    var clean := tx.lower(tx.strip(query));
    assert "hi" <= clean <==> clean[..Min(2, |clean|)] == "hi";
    assert "hello" <= clean <==> clean[..Min(5, |clean|)] == "hello";
    assert "hey" <= clean <==> clean[..Min(3, |clean|)] == "hey";
  }

  /** What a question that is neither empty nor a greeting makes retrieve do: it searches. */
  lemma RetrieveIff(tx: Text, w: World, visit: nat, s: State)
    ensures var q := tx.strip(if s.query != "" then s.query else LastUserText(s.messages));
            var greets := Greets(tx, tx.lower(tx.strip(q)));
            && (q == "" ==>
                  Retrieve(tx, w, visit, s) == s.(context := "", isRelevant := false, availableDocuments := []))
            && (q != "" && greets ==>
                  Retrieve(tx, w, visit, s) ==
                  s.(context := "", query := q, rewriteCount := 0, isRelevant := true, availableDocuments := []))
            && (q != "" && !greets ==>
                  Retrieve(tx, w, visit, s) ==
                  s.(context := w.context(visit), query := q, availableDocuments := w.documents(visit)))
            && (RetrieveBranch(tx, s) == Greeting <==> q != "" && greets)
            && (RetrieveBranch(tx, s) == Search <==> q != "" && !greets)
  {
    GreetingIff(tx, tx.strip(ExtractQuery(s)));
  }

  /** The user's message is the query of the turn, whatever came before it. */
  lemma TurnQuery(history: seq<Message>, query: string, leftRelevant: bool, leftDocuments: seq<string>)
    ensures ExtractQuery(Turn(history, query, leftRelevant, leftDocuments).s) == query
    ensures LastUserText(history + [DictMessage("user", query)]) == query
  {
  }

  /**
   The turn needs a correction: the question has more than two words and is none of the ten greetings, documents
   are listed for it, and their context is short or judged irrelevant.
   */
  ghost predicate NeedsCorrection(tx: Text, w: World, cfg: Settings, query: string) {
    var q := tx.strip(query);
    var clean := tx.lower(tx.strip(q));
    && cfg.enableQueryRewrite && q != ""
    && clean != "hi" && clean != "hello" && clean != "hey" && clean != "help" && clean != "who are you"
    && clean != "good morning" && clean != "good evening" && clean != "how are you"
    && clean != "thanks" && clean != "thank you" && tx.words(clean) > 2
    && w.documents(0) != [] && !(|tx.strip(w.context(0))| >= 30 && w.verdict(1))
  }

  lemma RouterIff(tx: Text, w: World, cfg: Settings, history: seq<Message>, query: string,
                  leftRelevant: bool, leftDocuments: seq<string>)
    ensures var c := Turn(history, query, leftRelevant, leftDocuments);
            Step(tx, w, cfg, Step(tx, w, cfg, c)).node == GENERATE <==> !NeedsCorrection(tx, w, cfg, query)
  {
    var c := Turn(history, query, leftRelevant, leftDocuments);
    TurnQuery(history, query, leftRelevant, leftDocuments);
    RetrieveIff(tx, w, 0, c.s);
  }

  /**
   Bounded correction: whatever the outside answers, a turn visits retrieve, grade and generate, with at
   most one rewrite and a second retrieve and grade in between, exactly when it needs a correction.
   */
  lemma BoundedCorrection(tx: Text, w: World, cfg: Settings, history: seq<Message>, query: string,
                          leftRelevant: bool, leftDocuments: seq<string>)
    ensures Run(tx, w, cfg, Turn(history, query, leftRelevant, leftDocuments)).0 ==
            if NeedsCorrection(tx, w, cfg, query) then CORRECTED else STRAIGHT
  {
    RouterIff(tx, w, cfg, history, query, leftRelevant, leftDocuments);
    PathByRouter(tx, w, cfg, Turn(history, query, leftRelevant, leftDocuments));
  }

  /** The prompt after a last retrieval for `query` on the n-th visit. */
  ghost function PromptFor(tx: Text, w: World, query: string, visit: nat): Prompt {
    var q := tx.strip(query);
    if q == "" then ContextPrompt("", [])
    else if Greets(tx, tx.lower(tx.strip(q))) then GreetingPrompt
    else ContextPrompt(w.context(visit)[..Min(3000, |w.context(visit)|)], w.documents(visit))
  }

  lemma PromptOfRetrieve(tx: Text, w: World, visit: nat, s: State)
    requires PythonText(tx)
    ensures var s' := Retrieve(tx, w, visit, s);
            forall relevant ::
              GeneratePrompt(tx, s'.(isRelevant := relevant)) == PromptFor(tx, w, ExtractQuery(s), visit)
  {
    RetrieveIff(tx, w, visit, s);
    GreetingIff(tx, tx.strip(ExtractQuery(s)));
    GreetingIff(tx, ExtractQuery(Retrieve(tx, w, visit, s)));
  }

  /** The state that generate sees, by the path that the run takes. */
  lemma FinalState(tx: Text, w: World, cfg: Settings, c: Config)
    requires c.node == RETRIEVE
    ensures var c2 := Step(tx, w, cfg, Step(tx, w, cfg, c));
            Run(tx, w, cfg, c).1.s ==
            if c2.node == GENERATE then c2.s
            else Grade(tx, w, c.visit + 2, Retrieve(tx, w, c.visit + 1, Rewrite(tx, w, c.visit + 1, c2.s)))
  {
    var c1 := Step(tx, w, cfg, c);
    var c2 := Step(tx, w, cfg, c1);
    assert Run(tx, w, cfg, c).1 == Run(tx, w, cfg, c2).1;
    if c2.node == GENERATE {
      RunEnd(tx, w, cfg, c2);
    } else {
      var c3 := Step(tx, w, cfg, c2);
      var c4 := Step(tx, w, cfg, c3);
      RunSettled(tx, w, cfg, c4);
      assert Run(tx, w, cfg, c2).1 == Run(tx, w, cfg, c4).1;
    }
  }

  /**
   What generate builds its prompt from at the end of a turn: the first retrieval for the query; after a correction
   the second one for the rewritten query, or for the query itself if the rewriter returned nothing.
   */
  lemma PromptOfTurn(tx: Text, w: World, cfg: Settings, history: seq<Message>, query: string,
                     leftRelevant: bool, leftDocuments: seq<string>)
    requires PythonText(tx)
    ensures var c := Turn(history, query, leftRelevant, leftDocuments);
            var rewritten := tx.strip(w.rewrite(1));
            GeneratePrompt(tx, Run(tx, w, cfg, c).1.s) ==
            if !NeedsCorrection(tx, w, cfg, query) then PromptFor(tx, w, query, 0)
            else PromptFor(tx, w, if rewritten != "" then rewritten else query, 1)
  {
    var c := Turn(history, query, leftRelevant, leftDocuments);
    TurnQuery(history, query, leftRelevant, leftDocuments);
    RouterIff(tx, w, cfg, history, query, leftRelevant, leftDocuments);
    FinalState(tx, w, cfg, c);
    var s1 := Retrieve(tx, w, 0, c.s);
    PromptOfRetrieve(tx, w, 0, c.s);
    var c2 := Step(tx, w, cfg, Step(tx, w, cfg, c));
    assert c2.s == s1.(isRelevant := c2.s.isRelevant);
    PromptOfRetrieve(tx, w, 1, Rewrite(tx, w, 1, c2.s));
  }

  /**
   No stale turn state: what the checkpoint kept of an earlier turn's relevance verdict and document list
   changes neither the path nor anything that generate sees.
   */
  lemma NoStaleTurnState(tx: Text, w: World, cfg: Settings, history: seq<Message>, query: string,
                         relevantA: bool, documentsA: seq<string>, relevantB: bool, documentsB: seq<string>)
    ensures Run(tx, w, cfg, Turn(history, query, relevantA, documentsA))
            == Run(tx, w, cfg, Turn(history, query, relevantB, documentsB))
  {
    var a := Step(tx, w, cfg, Turn(history, query, relevantA, documentsA));
    var b := Step(tx, w, cfg, Turn(history, query, relevantB, documentsB));
    assert b.s == a.s.(isRelevant := b.s.isRelevant);
    assert Step(tx, w, cfg, a) == Step(tx, w, cfg, b);
  }

  /** The branch that the last retrieve of the run took, starting from the branch `last` of an earlier one. */
  function LastBranch(tx: Text, w: World, cfg: Settings, c: Config, last: Branch): Branch
    decreases Rank(c)
  {
    if c.node == END then last
    else
      StepDescends(tx, w, cfg, c);
      LastBranch(tx, w, cfg, Step(tx, w, cfg, c), if c.node == RETRIEVE then RetrieveBranch(tx, c.s) else last)
  }

  /** What Python promises of the empty string. */
  ghost predicate PythonText(tx: Text) {
    tx.lower("") == ""
  }

  lemma {:induction false} PromptFollowsBranch(tx: Text, w: World, cfg: Settings, c: Config, last: Branch)
    requires PythonText(tx)
    requires c.node == GRADE || c.node == GENERATE || c.node == END ==>
               (GeneratePrompt(tx, c.s).GreetingPrompt? <==> last == Greeting)
    ensures GeneratePrompt(tx, Run(tx, w, cfg, c).1.s).GreetingPrompt? <==> LastBranch(tx, w, cfg, c, last) == Greeting
    decreases Rank(c)
  {
    if c.node != END {
      StepDescends(tx, w, cfg, c);
      var next := if c.node == RETRIEVE then RetrieveBranch(tx, c.s) else last;
      PromptFollowsBranch(tx, w, cfg, Step(tx, w, cfg, c), next);
    }
  }

  /** Generate uses its greeting prompt exactly when the last retrieve took the greeting branch. */
  lemma GreetingPromptIff(tx: Text, w: World, cfg: Settings, history: seq<Message>, query: string,
                          leftRelevant: bool, leftDocuments: seq<string>)
    requires PythonText(tx)
    ensures var c := Turn(history, query, leftRelevant, leftDocuments);
            GeneratePrompt(tx, Run(tx, w, cfg, c).1.s).GreetingPrompt? <==>
            LastBranch(tx, w, cfg, c, NoQuery) == Greeting
  {
    PromptFollowsBranch(tx, w, cfg, Turn(history, query, leftRelevant, leftDocuments), NoQuery);
  }
}
