/** The console's command tree: dispatching a line, and the context help, which must agree with it. */
module CliParser {
  import opened Base
  import opened Bits
  import opened CliLine

  const MAX_TOKENS := 8
  const MAX_ARGS := 4
  const NO_COMMAND := 0

  datatype Kind = Keyword | Argument

  datatype Node = Node(token: Text, kind: Kind, modes: nat, id: nat, children: seq<Node>)

  predicate Visible(node: Node, modes: nat) { And(node.modes, modes) != 0 }

  datatype Match = NoMatch | ByKeyword(node: Node) | ByArgument(node: Node)

  predicate Claims(node: Node, word: Text, modes: nat)
  {
    Visible(node, modes) && node.kind.Keyword? && node.token == word
  }

  predicate Catches(node: Node, modes: nat) { Visible(node, modes) && node.kind.Argument? }

  function FirstKeyword(level: seq<Node>, word: Text, modes: nat): (node: Option<Node>)
    ensures node.Some? ==> node.value in level && Claims(node.value, word, modes)
    ensures node.None? ==> forall n :: n in level ==> !Claims(n, word, modes)
  {
    if level == [] then None
    else if Claims(level[0], word, modes) then Some(level[0])
    else FirstKeyword(level[1..], word, modes)
  }

  function FirstArgument(level: seq<Node>, modes: nat): (node: Option<Node>)
    ensures node.Some? ==> node.value in level && Catches(node.value, modes)
    ensures node.None? ==> forall n :: n in level ==> !Catches(n, modes)
  {
    if level == [] then None
    else if Catches(level[0], modes) then Some(level[0])
    else FirstArgument(level[1..], modes)
  }

  /** `match_child`: a keyword claims its word; an argument catches what no keyword claims. */
  function MatchChild(level: seq<Node>, word: Text, modes: nat): (m: Match)
  {
    match FirstKeyword(level, word, modes)
    case Some(node) => ByKeyword(node)
    case None =>
      match FirstArgument(level, modes)
      case Some(node) => ByArgument(node)
      case None => NoMatch
  }

  predicate AnyVisible(level: seq<Node>, modes: nat) { exists n :: n in level && Visible(n, modes) }

  // ---------------------------------------------------------------------------
  // Dispatch

  datatype Status = Ok | Empty | Unknown | Incomplete | TooMany

  datatype Result = Result(status: Status, id: nat, args: seq<Text>, badIndex: nat)

  /** Where a walk through the tree has got to. */
  datatype Place = Place(node: Option<Node>, level: seq<Node>, args: seq<Text>)

  function Enter(p: Place, m: Match, word: Text): (q: Place)
    requires !m.NoMatch?
  {
    Place(Some(m.node), m.node.children, if m.ByArgument? then p.args + [word] else p.args)
  }

  /** Dispatch the words from one place on; `index` counts the words already taken. */
  function ParseFrom(p: Place, words: seq<Text>, index: nat, modes: nat): (r: Result)
    decreases |words|
  {
    if words == [] then
      match p.node
      case None => Result(Empty, NO_COMMAND, [], 0)
      case Some(node) =>
        if node.id == NO_COMMAND then Result(Incomplete, NO_COMMAND, p.args, 0) else Result(Ok, node.id, p.args, 0)
    else
      var m := MatchChild(p.level, words[0], modes);
      if m.NoMatch? then Result(if AnyVisible(p.level, modes) then Unknown else TooMany, NO_COMMAND, p.args, index)
      else if m.ByArgument? && |p.args| >= MAX_ARGS then Result(TooMany, NO_COMMAND, p.args, index)
      else ParseFrom(Enter(p, m, words[0]), words[1..], index + 1, modes)
  }

  function Parse(root: seq<Node>, words: seq<Text>, modes: nat): (r: Result)
  {
    if |words| > MAX_TOKENS then Result(TooMany, NO_COMMAND, [], MAX_TOKENS - 1)
    else ParseFrom(Place(None, root, []), words, 0, modes)
  }

  // ---------------------------------------------------------------------------
  // Help

  datatype Offer = OfferNode(node: Node) | Return

  function Walk(p: Place, words: seq<Text>, modes: nat): (q: Option<Place>)
    decreases |words|
  {
    if words == [] then Some(p)
    else
      var m := MatchChild(p.level, words[0], modes);
      if m.NoMatch? then None else Walk(Enter(p, m, words[0]), words[1..], modes)
  }

  /** A visible node that can continue a partly typed word. */
  predicate Continues(node: Node, prefix: Text, modes: nat)
  {
    Visible(node, modes) && (node.kind.Argument? || prefix <= node.token)
  }

  function Offers(level: seq<Node>, prefix: Text, modes: nat): (offers: seq<Offer>)
    ensures forall o :: o in offers <==> exists n :: n in level && Continues(n, prefix, modes) && o == OfferNode(n)
  {
    if level == [] then []
    else
      (if Continues(level[0], prefix, modes) then [OfferNode(level[0])] else []) + Offers(level[1..], prefix, modes)
  }

  /** The whole words of a line before the place where it is being typed. */
  function Before(text: Text): (words: seq<Text>) { Words(text[..LastWordStart(text)]) }

  function Partial(text: Text): (prefix: Text) { text[LastWordStart(text)..] }

  function Help(root: seq<Node>, text: Text, modes: nat): (offers: seq<Offer>)
  {
    if |Words(text)| > MAX_TOKENS then []
    else match Walk(Place(None, root, []), Before(text), modes)
      case None => []
      case Some(q) =>
        Offers(q.level, Partial(text), modes)
        + if Partial(text) == [] && q.node.Some? && q.node.value.id != NO_COMMAND then [Return] else []
  }

  // ---------------------------------------------------------------------------
  // Agreement

  lemma {:induction false} ArgsGrow(p: Place, words: seq<Text>, modes: nat)
    requires Walk(p, words, modes).Some?
    ensures |p.args| <= |Walk(p, words, modes).value.args|
    decreases |words|
  {
    if words == [] {
    } else {
      ArgsGrow(Enter(p, MatchChild(p.level, words[0], modes), words[0]), words[1..], modes);
    }
  }

  /** Dispatch is the walk of help, as long as it takes no more arguments than a command may. */
  lemma {:induction false} DispatchIsTheWalk(p: Place, words: seq<Text>, index: nat, modes: nat)
    requires |p.args| <= MAX_ARGS
    ensures var q := Walk(p, words, modes);
      if q.Some? && |q.value.args| <= MAX_ARGS then
        ParseFrom(p, words, index, modes) == ParseFrom(q.value, [], 0, modes)
      else var s := ParseFrom(p, words, index, modes).status; s.Unknown? || s.TooMany?
    decreases |words|
  {
    if words == [] {
    } else {
      var m := MatchChild(p.level, words[0], modes);
      if !m.NoMatch? {
        var p1 := Enter(p, m, words[0]);
        if |p1.args| <= MAX_ARGS {
          DispatchIsTheWalk(p1, words[1..], index + 1, modes);
        } else if Walk(p1, words[1..], modes).Some? {
          ArgsGrow(p1, words[1..], modes);
        }
      }
    }
  }

  lemma {:induction false} WalkOneMore(p: Place, words: seq<Text>, word: Text, modes: nat)
    ensures Walk(p, words + [word], modes) ==
      match Walk(p, words, modes)
      case None => None
      case Some(q) =>
        var m := MatchChild(q.level, word, modes);
        if m.NoMatch? then None else Some(Enter(q, m, word))
    decreases |words|
  {
    if words == [] {
      assert words + [word] == [word] && [word][1..] == [];
    } else {
      assert (words + [word])[0] == words[0] && (words + [word])[1..] == words[1..] + [word];
      var m := MatchChild(p.level, words[0], modes);
      if !m.NoMatch? {
        WalkOneMore(Enter(p, m, words[0]), words[1..], word, modes);
      }
    }
  }

  /** A line with its last, partly typed word replaced by a whole one. */
  function Completed(text: Text, word: Text): (line: Text) { text[..LastWordStart(text)] + word }

  /** The place help walks to takes no more arguments than a command may. */
  predicate ArgsFit(root: seq<Node>, text: Text, modes: nat)
  {
    var q := Walk(Place(None, root, []), Before(text), modes);
    q.Some? ==> |q.value.args| <= MAX_ARGS
  }

  /** No path down the tree meets more than `room` argument nodes. */
  predicate FewArguments(level: seq<Node>, room: nat)
  {
    forall i :: 0 <= i < |level| ==>
      if level[i].kind.Argument? then room > 0 && FewArguments(level[i].children, room - 1)
      else FewArguments(level[i].children, room)
  }

  lemma {:induction false} WalkFits(p: Place, words: seq<Text>, room: nat, modes: nat)
    requires FewArguments(p.level, room) && Walk(p, words, modes).Some?
    ensures |Walk(p, words, modes).value.args| <= |p.args| + room
    decreases |words|
  {
    if words != [] {
      var m := MatchChild(p.level, words[0], modes);
      var i :| 0 <= i < |p.level| && p.level[i] == m.node;
      WalkFits(Enter(p, m, words[0]), words[1..], if m.ByArgument? then room - 1 else room, modes);
    }
  }

  /** In a tree with at most four argument nodes on every path every line fits. */
  lemma ShallowTreesFit(root: seq<Node>, text: Text, modes: nat)
    requires FewArguments(root, MAX_ARGS)
    ensures ArgsFit(root, text, modes)
  {
    var start := Place(None, root, []);
    if Walk(start, Before(text), modes).Some? {
      WalkFits(start, Before(text), MAX_ARGS, modes);
    }
  }

  /**
   Help agrees with dispatch. For a word that continues what is typed, on a line within the
   limits: help offers a keyword of that text exactly when a keyword claims the word in the
   completed line, and then the line parses to a command or to the beginning of one, never to an
   error.
   */
  lemma HelpAgreesWithDispatch(root: seq<Node>, text: Text, word: Text, modes: nat)
    requires word != [] && Plain(word) && Partial(text) <= word
    requires |Words(Completed(text, word))| <= MAX_TOKENS && ArgsFit(root, text, modes)
    ensures (exists n :: OfferNode(n) in Help(root, text, modes) && n.kind.Keyword? && n.token == word)
       <==> (var q := Walk(Place(None, root, []), Before(text), modes);
             q.Some? && MatchChild(q.value.level, word, modes).ByKeyword?)
    ensures (exists n :: OfferNode(n) in Help(root, text, modes) && n.kind.Keyword? && n.token == word)
        ==> (var s := Parse(root, Words(Completed(text, word)), modes).status; s.Ok? || s.Incomplete?)
  {
    var start := Place(None, root, []);
    var before, prefix := Before(text), Partial(text);
    OneMoreWord(text[..LastWordStart(text)], word);
    TypedWords(text);
    var walked := Walk(start, before, modes);
    if walked.Some? {
      var q := walked.value;
      OfferedKeywords(q, prefix, word, modes);
      WalkOneMore(start, before, word, modes);
      DispatchIsTheWalk(start, before + [word], 0, modes);
    }
  }

  /** The words of a line are those before the place of typing and the partly typed one, if any. */
  lemma TypedWords(text: Text)
    ensures Words(text) == Before(text) + if Partial(text) == [] then [] else [Partial(text)]
  {
    if EndsOnSeparator(text) {
      assert text[..|text|] == text;
    } else {
      PartialWordIsLast(text);
    }
  }

  lemma OfferedKeywords(q: Place, prefix: Text, word: Text, modes: nat)
    requires prefix <= word
    ensures (exists n :: OfferNode(n) in Offers(q.level, prefix, modes) && n.kind.Keyword? && n.token == word)
       <==> MatchChild(q.level, word, modes).ByKeyword?
  {
    if MatchChild(q.level, word, modes).ByKeyword? {
      var n := MatchChild(q.level, word, modes).node;
      assert Continues(n, prefix, modes);
      assert OfferNode(n) in Offers(q.level, prefix, modes);
    }
  }

  /** On a line ending on a separator, help says it is complete exactly when it parses to a command. */
  lemma ReturnMeansComplete(root: seq<Node>, text: Text, modes: nat)
    requires EndsOnSeparator(text) && ArgsFit(root, text, modes)
    ensures Return in Help(root, text, modes) <==> Parse(root, Words(text), modes).status.Ok?
  {
    var start := Place(None, root, []);
    assert text[..|text|] == text;
    assert Before(text) == Words(text) && Partial(text) == [];
    DispatchIsTheWalk(start, Words(text), 0, modes);
    var walked := Walk(start, Words(text), modes);
    if walked.Some? {
      assert Return !in Offers(walked.value.level, [], modes);
    }
  }

  // ---------------------------------------------------------------------------
  // The loops

  /** The scan of a level from some node on, with the first argument node met before it. */
  function Scan(level: seq<Node>, arg: Option<Node>, word: Text, modes: nat): (m: Match)
  {
    if level == [] then (if arg.Some? then ByArgument(arg.value) else NoMatch)
    else if Claims(level[0], word, modes) then ByKeyword(level[0])
    else Scan(level[1..], if arg.None? && Catches(level[0], modes) then Some(level[0]) else arg, word, modes)
  }

  lemma {:induction false} ScanFinds(level: seq<Node>, arg: Option<Node>, word: Text, modes: nat)
    ensures Scan(level, arg, word, modes)
         == match FirstKeyword(level, word, modes)
            case Some(node) => ByKeyword(node)
            case None =>
              var catcher := if arg.Some? then arg else FirstArgument(level, modes);
              if catcher.Some? then ByArgument(catcher.value) else NoMatch
  {
    if level != [] && !Claims(level[0], word, modes) {
      ScanFinds(level[1..], if arg.None? && Catches(level[0], modes) then Some(level[0]) else arg, word, modes);
    }
  }

  method FindChild(level: seq<Node>, word: Text, modes: nat) returns (m: Match)
    ensures m == MatchChild(level, word, modes)
  {
    ScanFinds(level, None, word, modes);
    var arg: Option<Node> := None;
    for i := 0 to |level|
      invariant Scan(level[i..], arg, word, modes) == Scan(level, None, word, modes)
    {
      var node := level[i];
      assert level[i..][0] == node && level[i..][1..] == level[i + 1..];
      if Visible(node, modes) {
        if node.kind.Keyword? {
          if node.token == word {
            return ByKeyword(node);
          }
        } else if arg.None? {
          arg := Some(node);
        }
      }
    }
    m := if arg.Some? then ByArgument(arg.value) else NoMatch;
  }

  method HasVisible(level: seq<Node>, modes: nat) returns (yes: bool)
    ensures yes == AnyVisible(level, modes)
  {
    for i := 0 to |level|
      invariant forall k :: 0 <= k < i ==> !Visible(level[k], modes)
    {
      if Visible(level[i], modes) {
        return true;
      }
    }
    yes := false;
  }

  /** `cli_parser_parse`. */
  method ParseLine(root: seq<Node>, line: array<Byte>, n: nat, modes: nat) returns (r: Result)
    requires n < line.Length && line[n] == NUL && forall i :: 0 <= i < n ==> line[i] != NUL
    modifies line
    ensures r == Parse(root, Words(old(line[..n])), modes)
  {
    ghost var words := Words(line[..n]);
    var tokens, tooMany := Tokenize(line, n, MAX_TOKENS);
    if tooMany {
      return Result(TooMany, NO_COMMAND, [], MAX_TOKENS - 1);
    }
    if |tokens| == 0 {
      return Result(Empty, NO_COMMAND, [], 0);
    }
    ghost var split := line[..];
    var level, node: Option<Node>, args: seq<Text> := root, None, [];
    assert words[0..] == words;
    for i := 0 to |tokens|
      invariant ParseFrom(Place(node, level, args), words[i..], i, modes)
             == ParseFrom(Place(None, root, []), words, 0, modes)
      invariant i > 0 ==> node.Some?
      invariant line[..] == split
    {
      var word := StringAt(line[..], tokens[i]);
      FirstWord(words, i);
      var next := FindChild(level, word, modes);
      if next.NoMatch? {
        var any := HasVisible(level, modes);
        return Result(if any then Unknown else TooMany, NO_COMMAND, args, i);
      }
      if next.ByArgument? {
        if |args| >= MAX_ARGS {
          return Result(TooMany, NO_COMMAND, args, i);
        }
        args := args + [word];
      }
      node, level := Some(next.node), next.node.children;
    }
    assert words[|tokens|..] == [];
    if node.value.id == NO_COMMAND {
      return Result(Incomplete, NO_COMMAND, args, 0);
    }
    r := Result(Ok, node.value.id, args, 0);
  }

  /** `cli_parser_help`: what is offered, in order. */
  method HelpLine(root: seq<Node>, line: array<Byte>, n: nat, modes: nat) returns (offers: seq<Offer>)
    requires n < line.Length && line[n] == NUL && forall i :: 0 <= i < n ==> line[i] != NUL
    modifies line
    ensures offers == Help(root, old(line[..n]), modes)
  {
    ghost var text: Text := line[..n];
    ghost var words: seq<Text> := Words(text);
    TypedWords(text);
    var endsOnSeparator := n == 0 || IsSeparator(line[n - 1]);
    var tokens, tooMany := Tokenize(line, n, MAX_TOKENS);
    if tooMany {
      return [];
    }
    var walk, prefix: Text := |tokens|, [];
    if !endsOnSeparator {
      PartialWordIsLast(text);
      walk := walk - 1;
      prefix := StringAt(line[..], tokens[walk]);
    }
    assert Before(text) == words[..walk] && Partial(text) == prefix;
    var found, level, node := WalkTokens(root, line[..], tokens[..walk], modes, words[..walk]);
    if !found {
      return [];
    }
    offers := ListOffers(level, prefix, modes);
    if |prefix| == 0 && node.Some? && node.value.id != NO_COMMAND {
      offers := offers + [Return];
    }
  }

  /** The walk of help: the place the whole words lead to. */
  method WalkTokens(root: seq<Node>, split: Text, tokens: seq<nat>, modes: nat, ghost words: seq<Text>)
    returns (found: bool, level: seq<Node>, node: Option<Node>)
    requires |tokens| == |words|
    requires forall i :: 0 <= i < |tokens| ==> tokens[i] <= |split| && StringAt(split, tokens[i]) == words[i]
    ensures found <==> Walk(Place(None, root, []), words, modes).Some?
    ensures found ==> Walk(Place(None, root, []), words, modes).value.(args := []) == Place(node, level, [])
  {
    found, level, node := true, root, None;
    ghost var args: seq<Text> := [];
    assert words[0..] == words;
    for i := 0 to |tokens|
      invariant Walk(Place(node, level, args), words[i..], modes) == Walk(Place(None, root, []), words, modes)
    {
      var word := StringAt(split, tokens[i]);
      FirstWord(words, i);
      var next := FindChild(level, word, modes);
      if next.NoMatch? {
        return false, level, node;
      }
      args := Enter(Place(node, level, args), next, word).args;
      node, level := Some(next.node), next.node.children;
    }
  }

  lemma FirstWord(words: seq<Text>, i: nat)
    requires i < |words|
    ensures words[i..] != [] && words[i..][0] == words[i] && words[i..][1..] == words[i + 1..]
  {
  }

  method ListOffers(level: seq<Node>, prefix: Text, modes: nat) returns (offers: seq<Offer>)
    ensures offers == Offers(level, prefix, modes)
  {
    offers := [];
    assert level[0..] == level;
    for i := 0 to |level|
      invariant offers + Offers(level[i..], prefix, modes) == Offers(level, prefix, modes)
    {
      var child := level[i];
      assert level[i..][0] == child && level[i..][1..] == level[i + 1..];
      if Visible(child, modes) && (child.kind.Argument? || prefix <= child.token) {
        offers := offers + [OfferNode(child)];
      }
    }
    assert level[|level|..] == [];
  }
}
