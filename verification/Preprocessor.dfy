/** Tokens of the assembler, as far as the preprocessor and the expression parser look at them. */
module Tokens {

  datatype TokenType =
    | Number | NumberHex | Str | Identifier | PreProcessor
    | DataReg | AddressReg | ControlReg
    | BinaryOperator | CompareOperator | Exclamation | Dot | Comma | OpenParen | CloseParen
    | Other | EoF

  datatype Token = Token(kind: TokenType, value: string)
}

/** Include expansion: what a source means when every include stands for the file it names. */
module Inclusion {
  import opened Basics
  import opened Tokens

  /** The tokens of the assets by name, each list with its end-of-file token. */
  type Loader = map<string, seq<Token>>

  /** A depth of nesting for every asset name. */
  type Rank = map<string, nat>

  function RankOf(rank: Rank, name: string): nat
  {
    if name in rank then rank[name] else 0
  }

  function Body(asset: seq<Token>): seq<Token>
  {
    if |asset| == 0 then [] else asset[..|asset| - 1]
  }

  predicate IsInclude(t: Token)
  {
    t.value == "include"
  }

  /** A directive with all its parts in place at the front of ts. */
  predicate Directive(ts: seq<Token>)
  {
    |ts| >= 3 && ts[0].kind == Dot && ts[1].kind == PreProcessor && IsInclude(ts[1]) && ts[2].kind == Str
  }

  /** Every name included from ts has a rank below r. */
  ghost predicate Below(ts: seq<Token>, rank: Rank, r: nat)
  {
    forall i :: 0 < i < |ts| && ts[i - 1].kind == PreProcessor && ts[i].kind == Str ==> RankOf(rank, ts[i].value) < r
  }

  /** No asset includes itself, at any depth. */
  ghost predicate Acyclic(loader: Loader, rank: Rank)
  {
    forall name :: name in loader ==> Below(Body(loader[name]), rank, RankOf(rank, name))
  }

  /** No directive crosses the boundary of its file, or leans on the string of another directive. */
  ghost predicate Closed(ts: seq<Token>)
  {
    forall i :: 0 <= i < |ts| && ts[i].kind == PreProcessor ==> 0 < i < |ts| - 1 && ts[i - 1].kind != Str
  }

  ghost predicate AssetsClosed(loader: Loader)
  {
    forall name :: name in loader ==> Closed(Body(loader[name]))
  }

  function Join(a: Option<seq<Token>>, b: Option<seq<Token>>): Option<seq<Token>>
  {
    if a.Some? && b.Some? then Some(a.value + b.value) else None
  }

  /** Recursive substitution; None when a directive is malformed or names no asset. */
  ghost function Expand(ts: seq<Token>, loader: Loader, rank: Rank, r: nat): Option<seq<Token>>
    requires Acyclic(loader, rank) && Below(ts, rank, r)
    decreases r, |ts|
  {
    if |ts| == 0 then Some([])
    else if Directive(ts) then
      var name := ts[2].value;
      if name !in loader then None
      else
        BelowTail(ts, 3, rank, r);
        Join(Expand(Body(loader[name]), loader, rank, RankOf(rank, name)), Expand(ts[3..], loader, rank, r))
    else if ts[0].kind == PreProcessor || (|ts| > 1 && ts[0].kind == Dot && ts[1].kind == PreProcessor) then None
    else
      BelowTail(ts, 1, rank, r);
      Join(Some([ts[0]]), Expand(ts[1..], loader, rank, r))
  }

  /** How much there is to scan once everything is expanded. */
  ghost function Weight(ts: seq<Token>, loader: Loader, rank: Rank, r: nat): nat
    requires Acyclic(loader, rank) && Below(ts, rank, r)
    decreases r, |ts|
  {
    if |ts| == 0 then 0
    else if Directive(ts) && ts[2].value in loader then
      BelowTail(ts, 3, rank, r);
      1 + Weight(Body(loader[ts[2].value]), loader, rank, RankOf(rank, ts[2].value)) + Weight(ts[3..], loader, rank, r)
    else
      BelowTail(ts, 1, rank, r);
      1 + Weight(ts[1..], loader, rank, r)
  }

  /** The ranks only bound the recursion. */
  lemma {:induction false} RankIrrelevant(ts: seq<Token>, loader: Loader, rank: Rank, r: nat, q: nat)
    requires Acyclic(loader, rank) && Below(ts, rank, r) && Below(ts, rank, q)
    ensures Expand(ts, loader, rank, r) == Expand(ts, loader, rank, q)
    ensures Weight(ts, loader, rank, r) == Weight(ts, loader, rank, q)
    decreases |ts|
  {
    hide Below, Acyclic;
    if |ts| > 0 {
      BelowTail(ts, 1, rank, r);
      BelowTail(ts, 1, rank, q);
      RankIrrelevant(ts[1..], loader, rank, r, q);
      if Directive(ts) {
        BelowTail(ts, 3, rank, r);
        BelowTail(ts, 3, rank, q);
        RankIrrelevant(ts[3..], loader, rank, r, q);
      }
    }
  }

  lemma JoinAssociates(a: Option<seq<Token>>, b: Option<seq<Token>>, c: Option<seq<Token>>)
    ensures Join(Join(a, b), c) == Join(a, Join(b, c))
  {
    if a.Some? && b.Some? && c.Some? {
      assert a.value + b.value + c.value == a.value + (b.value + c.value);
    }
  }

  lemma JoinNothing(a: Option<seq<Token>>)
    ensures Join(Some([]), a) == a
  {
    if a.Some? {
      assert [] + a.value == a.value;
    }
  }

  lemma ClosedTail(ts: seq<Token>, k: nat)
    requires Closed(ts) && k <= |ts| && (k < |ts| ==> ts[k].kind != PreProcessor)
    ensures Closed(ts[k..])
  {
  }

  lemma ClosedJoin(a: seq<Token>, b: seq<Token>)
    requires Closed(a) && Closed(b)
    ensures Closed(a + b)
  {
  }

  lemma BelowJoin(a: seq<Token>, b: seq<Token>, rank: Rank, r: nat)
    requires Closed(a) && Below(a, rank, r) && Below(b, rank, r)
    ensures Below(a + b, rank, r)
  {
  }

  lemma BelowTail(ts: seq<Token>, k: nat, rank: Rank, r: nat)
    requires Below(ts, rank, r) && k <= |ts|
    ensures Below(ts[k..], rank, r)
  {
  }

  /** No include keyword at the end. */
  ghost predicate Whole(ts: seq<Token>)
  {
    forall i :: 0 <= i < |ts| && ts[i].kind == PreProcessor ==> i < |ts| - 1
  }

  /** Whether a directive stands at the front of a + b is decided by a. */
  lemma SameFront(a: seq<Token>, b: seq<Token>)
    requires Whole(a) && Closed(b) && |a| > 0
    ensures Directive(a + b) <==> Directive(a)
    ensures Directive(a) ==> (a + b)[3..] == a[3..] + b && (a + b)[2] == a[2] && Whole(a[3..])
    ensures (a + b)[1..] == a[1..] + b && (a + b)[0] == a[0] && Whole(a[1..])
  {
    hide IsInclude;
    var all := a + b;
    forall i | 0 <= i < |a| ensures all[i] == a[i] {
    }
    WholeTail(a, 1);
    if Directive(a) { WholeTail(a, 3); }
  }

  lemma WholeTail(a: seq<Token>, n: nat)
    requires Whole(a) && n <= |a|
    ensures Whole(a[n..])
  {
    forall i | 0 <= i < |a[n..]| ensures a[n..][i] == a[n + i] {
    }
  }

  lemma BelowWhole(a: seq<Token>, b: seq<Token>, rank: Rank, r: nat)
    requires Whole(a) && Below(a, rank, r) && Below(b, rank, r)
    ensures Below(a + b, rank, r)
  {
  }

  lemma {:induction false} WeightJoin(a: seq<Token>, b: seq<Token>, loader: Loader, rank: Rank, r: nat)
    requires Acyclic(loader, rank) && Whole(a) && Closed(b) && Below(a, rank, r) && Below(b, rank, r)
    ensures Below(a + b, rank, r)
    ensures Weight(a + b, loader, rank, r) == Weight(a, loader, rank, r) + Weight(b, loader, rank, r)
    decreases |a|
  {
    BelowWhole(a, b, rank, r);
    if |a| == 0 {
      assert a + b == b;
    } else {
      hide Below, Whole, Closed, Directive;
      SameFront(a, b);
      BelowTail(a, 1, rank, r);
      WeightJoin(a[1..], b, loader, rank, r);
      if Directive(a) {
        assert |a| >= 3 by { SameFront(a, b); }
        BelowTail(a, 3, rank, r);
        WeightJoin(a[3..], b, loader, rank, r);
      }
    }
  }

  lemma ClosedIsWhole(ts: seq<Token>)
    requires Closed(ts)
    ensures Whole(ts)
  {
  }

  /** Closed files expand piece by piece. */
  lemma {:induction false} ExpandJoin(a: seq<Token>, b: seq<Token>, loader: Loader, rank: Rank, r: nat)
    requires Acyclic(loader, rank) && Closed(a) && Closed(b) && Below(a, rank, r) && Below(b, rank, r)
    ensures Below(a + b, rank, r)
    ensures Expand(a + b, loader, rank, r) == Join(Expand(a, loader, rank, r), Expand(b, loader, rank, r))
    decreases |a|
  {
    BelowJoin(a, b, rank, r);
    ClosedIsWhole(a);
    if |a| == 0 {
      assert a + b == b;
      JoinNothing(Expand(b, loader, rank, r));
    } else {
      hide Below, Whole, Acyclic, Join;
      SameFront(a, b);
      BelowTail(a, 1, rank, r);
      if Directive(a) { BelowTail(a, 3, rank, r); }
      if Directive(a) {
        ClosedTail(a, 3);
        assert (a + b)[3..] == a[3..] + b;
        ExpandJoin(a[3..], b, loader, rank, r);
        if a[2].value in loader {
          JoinAssociates(Expand(Body(loader[a[2].value]), loader, rank, RankOf(rank, a[2].value)),
                         Expand(a[3..], loader, rank, r), Expand(b, loader, rank, r));
        }
      } else if |a| == 1 || a[1].kind != PreProcessor {
        ClosedTail(a, 1);
        assert (a + b)[1..] == a[1..] + b;
        ExpandJoin(a[1..], b, loader, rank, r);
        JoinAssociates(Some([a[0]]), Expand(a[1..], loader, rank, r), Expand(b, loader, rank, r));
      } else {
        BrokenDirective(a, loader, rank, r);
        BrokenDirective(a + b, loader, rank, r);
      }
    }
  }

  /** An include keyword without its dot or its string has no expansion. */
  lemma {:induction false} BrokenDirective(ts: seq<Token>, loader: Loader, rank: Rank, r: nat)
    requires Acyclic(loader, rank) && Below(ts, rank, r)
    requires |ts| > 1 && ts[0].kind != PreProcessor && ts[1].kind == PreProcessor && !Directive(ts)
    ensures Expand(ts, loader, rank, r) == None
  {
    assert Expand(ts[1..], loader, rank, r) == None;
  }

  /** Every include stands for its asset, however often the asset is named. */
  lemma Substitution(pre: seq<Token>, line: seq<Token>, post: seq<Token>, loader: Loader, rank: Rank, r: nat)
    requires Acyclic(loader, rank) && Closed(pre) && Closed(post) && |line| == 3 && Directive(line)
    requires Below(pre, rank, r) && Below(line, rank, r) && Below(post, rank, r) && line[2].value in loader
    ensures Below(pre + line + post, rank, r)
    ensures var asset := Body(loader[line[2].value]);
            Expand(pre + line + post, loader, rank, r)
            == Join(Join(Expand(pre, loader, rank, r), Expand(asset, loader, rank, RankOf(rank, line[2].value))),
                    Expand(post, loader, rank, r))
  {
    ClosedJoin(pre, line);
    ExpandJoin(pre, line, loader, rank, r);
    ExpandJoin(pre + line, post, loader, rank, r);
    var asset := Expand(Body(loader[line[2].value]), loader, rank, RankOf(rank, line[2].value));
    assert line[3..] == [];
    if asset.Some? {
      assert asset.value + [] == asset.value;
    }
  }

  /** An expansion has no include left. */
  lemma {:induction false} FullyExpanded(ts: seq<Token>, loader: Loader, rank: Rank, r: nat)
    requires Acyclic(loader, rank) && Below(ts, rank, r) && Expand(ts, loader, rank, r).Some?
    ensures forall t :: t in Expand(ts, loader, rank, r).value ==> t.kind != PreProcessor
    decreases r, |ts|
  {
    if |ts| == 0 {
    } else if Directive(ts) {
      FullyExpanded(Body(loader[ts[2].value]), loader, rank, RankOf(rank, ts[2].value));
      FullyExpanded(ts[3..], loader, rank, r);
    } else {
      FullyExpanded(ts[1..], loader, rank, r);
    }
  }

  /** So preprocessing again changes nothing. */
  lemma {:induction false} ExpandPlain(ts: seq<Token>, loader: Loader, rank: Rank, r: nat)
    requires Acyclic(loader, rank) && Below(ts, rank, r)
    requires forall t :: t in ts ==> t.kind != PreProcessor
    ensures Expand(ts, loader, rank, r) == Some(ts)
  {
    if |ts| > 0 {
      assert ts[0] in ts && (|ts| > 1 ==> ts[1] in ts);
      ExpandPlain(ts[1..], loader, rank, r);
      assert [ts[0]] + ts[1..] == ts;
    }
  }

  /** A directive line that names an asset is replaced by the tokens of that but for the last. */
  lemma IncludedTokens(pre: seq<Token>, line: seq<Token>, post: seq<Token>, inner: seq<Token>, last: Token,
                       loader: Loader, rank: Rank, r: nat)
    requires Acyclic(loader, rank) && Closed(pre) && Closed(post)
    requires Below(pre, rank, r) && Below(line, rank, r) && Below(post, rank, r)
    requires |line| == 3 && line[0].kind == Dot && line[1] == Token(PreProcessor, "include") && line[2].kind == Str
    requires line[2].value in loader && loader[line[2].value] == inner + [last]
    requires forall t :: t in inner ==> t.kind != PreProcessor
    ensures Below(pre + line + post, rank, r)
    ensures var before, after := Expand(pre, loader, rank, r), Expand(post, loader, rank, r);
            Expand(pre + line + post, loader, rank, r) ==
            if before.Some? && after.Some? then Some(before.value + inner + after.value) else None
  {
    hide Acyclic, Below, Closed, Expand;
    Substitution(pre, line, post, loader, rank, r);
    BodyIs(inner, last);
    NamedBelow(line[2].value, loader, rank);
    ExpandPlain(inner, loader, rank, RankOf(rank, line[2].value));
  }

  lemma BodyIs(inner: seq<Token>, last: Token)
    ensures Body(inner + [last]) == inner
  {
  }

  lemma NamedBelow(name: string, loader: Loader, rank: Rank)
    requires Acyclic(loader, rank) && name in loader
    ensures Below(Body(loader[name]), rank, RankOf(rank, name))
  {
  }

  /** A keyword other than include, or one without its dot, its string or its asset, cannot be expanded. */
  lemma {:induction false} OnlyIncludes(pre: seq<Token>, x: Token, keyword: Token, y: Token, post: seq<Token>,
                                        loader: Loader, rank: Rank, r: nat)
    requires Acyclic(loader, rank) && Closed(pre) && Closed([x, keyword, y] + post) && keyword.kind == PreProcessor
    requires Below(pre, rank, r) && Below([x, keyword, y] + post, rank, r)
    requires x.kind != Dot || keyword.value != "include" || y.kind != Str || y.value !in loader
    ensures Below(pre + ([x, keyword, y] + post), rank, r) && Expand(pre + ([x, keyword, y] + post), loader, rank, r) == None
  {
    var ts := [x, keyword, y] + post;
    assert ts[0] == x && ts[1] == keyword && ts[2] == y;
    ExpandJoin(pre, ts, loader, rank, r);
    if !Directive(ts) { BrokenDirective(ts, loader, rank, r); }
  }

  /** The end-of-file tokens of a list, in order. */
  function Ends(ts: seq<Token>): seq<Token>
  {
    if |ts| == 0 then [] else (if ts[0].kind == EoF then [ts[0]] else []) + Ends(ts[1..])
  }

  lemma {:induction false} EndsJoin(a: seq<Token>, b: seq<Token>)
    ensures Ends(a + b) == Ends(a) + Ends(b)
  {
    if |a| == 0 {
      assert a + b == b;
    } else {
      assert (a + b)[1..] == a[1..] + b;
      EndsJoin(a[1..], b);
    }
  }

  lemma {:induction false} NoEnds(ts: seq<Token>)
    requires forall t :: t in ts ==> t.kind != EoF
    ensures Ends(ts) == []
  {
    if |ts| > 0 { NoEnds(ts[1..]); }
  }

  /** The lexer puts one end-of-file token behind every asset. */
  predicate EndsOnce(loader: Loader)
  {
    forall name :: name in loader ==>
      |loader[name]| > 0 && forall i :: 0 <= i < |loader[name]| - 1 ==> loader[name][i].kind != EoF
  }

  /** No asset brings its end-of-file token along: those of the source are all there are. */
  lemma {:induction false} EndsOfSource(ts: seq<Token>, loader: Loader, rank: Rank, r: nat)
    requires Acyclic(loader, rank) && Below(ts, rank, r) && EndsOnce(loader) && Expand(ts, loader, rank, r).Some?
    ensures Ends(Expand(ts, loader, rank, r).value) == Ends(ts)
    decreases r, |ts|
  {
    hide Below, Acyclic, EndsOnce;
    if |ts| == 0 {
    } else if Directive(ts) {
      var name := ts[2].value;
      var asset, rest := Body(loader[name]), ts[3..];
      RankDrops(ts, rank, r);
      NamedBelow(name, loader, rank);
      BelowTail(ts, 3, rank, r);
      EndsOfSource(asset, loader, rank, RankOf(rank, name));
      EndsOfSource(rest, loader, rank, r);
      AssetNoEnds(loader, name);
      EndsJoin(Expand(asset, loader, rank, RankOf(rank, name)).value, Expand(rest, loader, rank, r).value);
      EndsOfDirective(ts);
    } else {
      BelowTail(ts, 1, rank, r);
      EndsOfSource(ts[1..], loader, rank, r);
      EndsJoin([ts[0]], Expand(ts[1..], loader, rank, r).value);
      assert [ts[0]][1..] == [];
    }
  }

  lemma RankDrops(ts: seq<Token>, rank: Rank, r: nat)
    requires Below(ts, rank, r) && Directive(ts)
    ensures RankOf(rank, ts[2].value) < r
  {
  }

  lemma AssetNoEnds(loader: Loader, name: string)
    requires EndsOnce(loader) && name in loader
    ensures Ends(Body(loader[name])) == []
  {
    var asset := loader[name];
    forall t | t in asset[..|asset| - 1] ensures t.kind != EoF {
    }
    NoEnds(asset[..|asset| - 1]);
  }

  lemma EndsOfDirective(ts: seq<Token>)
    requires Directive(ts)
    ensures Ends(ts) == Ends(ts[3..])
  {
    assert ts == ts[..3] + ts[3..];
    NoEnds(ts[..3]);
    EndsJoin(ts[..3], ts[3..]);
  }
}

/** The loop that splices the assets in place. */
module PreprocessorModel {
  import opened Basics
  import opened Tokens
  import opened Inclusion

  /** Where the part of the tokens begins that is still to expand, for a scan that stands at i. */
  function Cut(tokens: seq<Token>, i: nat): nat
  {
    if 0 < i < |tokens| && tokens[i].kind == PreProcessor then i - 1 else if i <= |tokens| then i else |tokens|
  }

  /** The scanned tokens, with the expansion of the rest, are the expansion of the whole. */
  ghost predicate Scanning(tokens: seq<Token>, i: nat, loader: Loader, rank: Rank, r: nat, whole: Option<seq<Token>>)
    requires Acyclic(loader, rank)
  {
    var c := Cut(tokens, i);
    && Closed(tokens[c..]) && Below(tokens[c..], rank, r)
    && whole == Join(Some(tokens[..c]), Expand(tokens[c..], loader, rank, r))
  }

  /** A position whose token does not start a directive can be passed over. */
  lemma PassOver(tokens: seq<Token>, i: nat, loader: Loader, rank: Rank, r: nat, whole: Option<seq<Token>>)
    requires Acyclic(loader, rank) && i <= |tokens| && (i < |tokens| ==> tokens[i].kind != PreProcessor)
    requires Closed(tokens[i..]) && Below(tokens[i..], rank, r)
    requires whole == Join(Some(tokens[..i]), Expand(tokens[i..], loader, rank, r))
    ensures Scanning(tokens, i + 1, loader, rank, r, whole)
    ensures var c := Cut(tokens, i + 1);
            c == i || (c == i + 1 && Weight(tokens[c..], loader, rank, r) < Weight(tokens[i..], loader, rank, r))
    ensures Cut(tokens, i + 1) == i ==> i == |tokens| || (i + 1 < |tokens| && tokens[i + 1].kind == PreProcessor)
  {
    if i < |tokens| {
      var ts := tokens[i..];
      assert ts[0] == tokens[i] && (i + 1 < |tokens| ==> ts[1] == tokens[i + 1]);
      if i + 1 == |tokens| || tokens[i + 1].kind != PreProcessor {
        assert ts[1..] == tokens[i + 1..];
        ClosedTail(ts, 1);
        JoinAssociates(Some(tokens[..i]), Some([ts[0]]), Expand(ts[1..], loader, rank, r));
        assert tokens[..i] + [ts[0]] == tokens[..i + 1];
      }
    }
  }

  lemma SplicedParts(tokens: seq<Token>, at: nat, body: seq<Token>)
    requires at + 3 <= |tokens|
    ensures var spliced := tokens[..at] + body + tokens[at + 3..];
            spliced[at..] == body + tokens[at..][3..] && spliced[..at] == tokens[..at]
  {
    assert tokens[at..][3..] == tokens[at + 3..];
  }

  /** Putting an asset in the place of its directive changes nothing of what the source means. */
  lemma Splice(tokens: seq<Token>, at: nat, loader: Loader, rank: Rank, r: nat, whole: Option<seq<Token>>)
    requires Acyclic(loader, rank) && AssetsClosed(loader) && at + 3 <= |tokens| && Directive(tokens[at..])
    requires tokens[at + 2].value in loader
    requires Closed(tokens[at..]) && Below(tokens[at..], rank, r)
    requires whole == Join(Some(tokens[..at]), Expand(tokens[at..], loader, rank, r))
    ensures var spliced := tokens[..at] + Body(loader[tokens[at + 2].value]) + tokens[at + 3..];
            && at <= |spliced| && (at < |spliced| ==> spliced[at].kind != PreProcessor)
            && Closed(spliced[at..]) && Below(spliced[at..], rank, r)
            && whole == Join(Some(spliced[..at]), Expand(spliced[at..], loader, rank, r))
            && Weight(spliced[at..], loader, rank, r) < Weight(tokens[at..], loader, rank, r)
  {
    var ts := tokens[at..];
    var name := ts[2].value;
    var body, rest := Body(loader[name]), ts[3..];
    var spliced := tokens[..at] + body + tokens[at + 3..];
    assert rest == tokens[at + 3..] && ts[2] == tokens[at + 2];
    assert RankOf(rank, ts[2].value) < r;
    ClosedTail(ts, 3);
    ClosedJoin(body, rest);
    BelowTail(ts, 3, rank, r);
    SplicedParts(tokens, at, body);
    assert Below(body, rank, r);
    hide Below, Closed, AssetsClosed, Acyclic;
    RankIrrelevant(body, loader, rank, RankOf(rank, name), r);
    ExpandJoin(body, rest, loader, rank, r);
    WeightJoin(body, rest, loader, rank, r);
  }

  /** The tokens with those of an asset in the place of the directive around position i. */
  function Spliced(tokens: seq<Token>, i: nat, body: seq<Token>): seq<Token>
    requires 0 < i < |tokens| - 1
  {
    tokens[..i - 1] + body + tokens[i + 2..]
  }

  predicate IsValidDirectiveAt(idx: nat, tokens: seq<Token>)
    requires 0 < idx < |tokens|
  {
    idx != |tokens| - 1 && tokens[idx - 1].kind == Dot && tokens[idx + 1].kind == Str
  }

  ghost function WeightLeft(tokens: seq<Token>, i: nat, loader: Loader, rank: Rank, r: nat): nat
    requires Acyclic(loader, rank)
  {
    var rest := tokens[Cut(tokens, i)..];
    if Below(rest, rank, r) then Weight(rest, loader, rank, r) else 0
  }

  /** The loop goes on after a token that is no include keyword. */
  lemma ScanPast(tokens: seq<Token>, i: nat, loader: Loader, rank: Rank, r: nat, whole: Option<seq<Token>>)
    requires Acyclic(loader, rank) && i < |tokens| && tokens[i].kind != PreProcessor
    requires Scanning(tokens, i, loader, rank, r, whole)
    ensures Scanning(tokens, i + 1, loader, rank, r, whole)
    ensures WeightLeft(tokens, i + 1, loader, rank, r) <= WeightLeft(tokens, i, loader, rank, r)
  {
    hide Closed, Below, Expand, Weight;
    PassOver(tokens, i, loader, rank, r, whole);
  }

  /** The loop goes on behind the first token of an asset that it has put in. */
  lemma ScanSplice(tokens: seq<Token>, i: nat, loader: Loader, rank: Rank, r: nat, whole: Option<seq<Token>>)
    requires Acyclic(loader, rank) && AssetsClosed(loader) && 0 < i < |tokens| - 1 && tokens[i + 1].value in loader
    requires IsValidDirectiveAt(i, tokens) && tokens[i].kind == PreProcessor && IsInclude(tokens[i])
    requires Scanning(tokens, i, loader, rank, r, whole)
    ensures var spliced := Spliced(tokens, i, Body(loader[tokens[i + 1].value]));
            && Scanning(spliced, i, loader, rank, r, whole)
            && WeightLeft(spliced, i, loader, rank, r) < WeightLeft(tokens, i, loader, rank, r)
  {
    hide Closed, Below, Expand, Weight, AssetsClosed;
    Splice(tokens, i - 1, loader, rank, r, whole);
    var spliced := Spliced(tokens, i, Body(loader[tokens[i + 1].value]));
    PassOver(spliced, i - 1, loader, rank, r, whole);
  }

  /** What the scan finds at an include keyword decides the expansion of the rest. */
  lemma AtKeyword(tokens: seq<Token>, i: nat, loader: Loader, rank: Rank, r: nat, whole: Option<seq<Token>>)
    requires Acyclic(loader, rank) && i < |tokens| && tokens[i].kind == PreProcessor
    requires Scanning(tokens, i, loader, rank, r, whole) && (i > 0 || tokens[0].kind != PreProcessor)
    ensures 0 < i < |tokens| - 1
    ensures whole.Some? ==> IsValidDirectiveAt(i, tokens) && IsInclude(tokens[i])
    ensures whole.Some? ==> tokens[i + 1].value in loader
  {
    var ts := tokens[i - 1..];
    assert ts[0] == tokens[i - 1] && ts[1] == tokens[i];
    if !Directive(ts) { BrokenDirective(ts, loader, rank, r); }
  }

  lemma ScanEnds(tokens: seq<Token>, i: nat, loader: Loader, rank: Rank, r: nat, whole: Option<seq<Token>>)
    requires Acyclic(loader, rank) && i >= |tokens| && Scanning(tokens, i, loader, rank, r, whole)
    ensures whole == Some(tokens)
  {
    assert tokens[|tokens|..] == [] && tokens[..|tokens|] + [] == tokens;
  }

  lemma ScanStarts(tokens: seq<Token>, loader: Loader, rank: Rank, r: nat)
    requires Acyclic(loader, rank) && Closed(tokens) && Below(tokens, rank, r)
    ensures |tokens| > 0 ==> tokens[0].kind != PreProcessor
    ensures Scanning(tokens, 0, loader, rank, r, Expand(tokens, loader, rank, r))
  {
    assert tokens[0..] == tokens && tokens[..0] == [];
    JoinNothing(Expand(tokens, loader, rank, r));
  }

  class PreProcessor {
    // Searched before every include, and never added to.
    var assetsLoaded: seq<string>

    constructor ()
      ensures assetsLoaded == []
    {
      assetsLoaded := [];
    }

    predicate IsAssetAlreadyLoaded(assetName: string)
      reads this
    {
      assetName in assetsLoaded
    }

    /** Replaces the directive at idxAt by the tokens of its asset and steps back in front of them. */
    method ProcessIncludeDirective(idxAt: nat, tokens: seq<Token>, assetLoader: Loader)
      returns (ok: bool, idx: nat, spliced: seq<Token>)
      requires 0 < idxAt < |tokens| - 1 && assetsLoaded == []
      ensures ok <==> tokens[idxAt + 1].value in assetLoader
      ensures ok ==> idx == idxAt - 1
      ensures ok ==> spliced == Spliced(tokens, idxAt, Body(assetLoader[tokens[idxAt + 1].value]))
      ensures ok ==> var asset := assetLoader[tokens[idxAt + 1].value];
                |asset| > 0 ==> spliced == tokens[..idxAt - 1] + asset[..|asset| - 1] + tokens[idxAt + 2..]
    {
      var includeName := tokens[idxAt + 1].value;
      idx, spliced := idxAt, tokens;
      if IsAssetAlreadyLoaded(includeName) { return true, idx, spliced; }
      if includeName !in assetLoader { return false, idx, spliced; }
      var assetTokens := assetLoader[includeName];
      spliced := spliced[..idxAt - 1] + spliced[idxAt + 2..];
      spliced := spliced[..idxAt - 1] + Body(assetTokens) + spliced[idxAt - 1..];
      idx := idxAt - 1;
      return true, idx, spliced;
    }

    /**
     The splicing loop ends, succeeds exactly when every directive that is reached is well
     formed and names an asset, and then leaves the recursive expansion of the tokens.
     */
    method Process(source: seq<Token>, assetLoader: Loader, ghost rank: Rank, ghost r: nat)
      returns (ok: bool, tokens: seq<Token>)
      requires assetsLoaded == [] && Acyclic(assetLoader, rank) && Below(source, rank, r)
      requires Closed(source) && AssetsClosed(assetLoader)
      ensures ok <==> Expand(source, assetLoader, rank, r).Some?
      ensures ok ==> tokens == Expand(source, assetLoader, rank, r).value
    {
      hide *;
      ghost var whole := Expand(source, assetLoader, rank, r);
      tokens := source;
      var i: nat := 0;
      ScanStarts(source, assetLoader, rank, r);
      while i < |tokens|
        invariant Scanning(tokens, i, assetLoader, rank, r, whole)
        invariant i == 0 < |tokens| ==> tokens[0].kind != TokenType.PreProcessor
        decreases WeightLeft(tokens, i, assetLoader, rank, r), |tokens| - i
      {
        if tokens[i].kind != TokenType.PreProcessor {
          ScanPast(tokens, i, assetLoader, rank, r, whole);
        } else {
          AtKeyword(tokens, i, assetLoader, rank, r, whole);
          if !IsValidDirectiveAt(i, tokens) { return false, tokens; }
          if !IsInclude(tokens[i]) { return false, tokens; }
          ghost var before := tokens;
          ok, i, tokens := ProcessIncludeDirective(i, tokens, assetLoader);
          if !ok { return false, tokens; }
          ScanSplice(before, i + 1, assetLoader, rank, r, whole);
        }
        i := i + 1;
      }
      ScanEnds(tokens, i, assetLoader, rank, r, whole);
      return true, tokens;
    }
  }
}
