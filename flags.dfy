/**
  The command-line option values that `main` turns into configuration
  (main.go:57-100). `limit`, `ignore` and `tags` are comma-separated lists:
  each piece is trimmed of white space and pieces left empty are skipped. The
  `group` value goes through the same steps and then every token must name a
  grouping dimension, `pkg` or `type`; any other token is a fatal
  configuration error.
 */
module Flags {
  import opened Text

  /** The trimmed, non-empty pieces of `parts`, in their order. */
  function Clean(parts: seq<string>): (tokens: seq<string>)
    ensures |tokens| <= |parts|
  {
    if parts == [] then []
    else
      var t := TrimSpace(parts[0]);
      (if t == [] then [] else [t]) + Clean(parts[1..])
  }

  /** Cleaning works piece by piece, so it distributes over concatenation. */
  lemma {:induction false} CleanConcat(a: seq<string>, b: seq<string>)
    ensures Clean(a + b) == Clean(a) + Clean(b)
    decreases |a|
  {
    if a != [] {
      assert (a + b)[1..] == a[1..] + b;
      CleanConcat(a[1..], b);
    } else {
      assert a + b == b;
    }
  }

  /** Cleaning one more piece appends its trim, unless that is empty. */
  lemma CleanSnoc(parts: seq<string>, i: nat)
    requires i < |parts|
    ensures Clean(parts[..i + 1]) == Clean(parts[..i]) + Clean([parts[i]])
    ensures Clean([parts[i]]) == if TrimSpace(parts[i]) == [] then [] else [TrimSpace(parts[i])]
  {
    CleanConcat(parts[..i], [parts[i]]);
    assert parts[..i + 1] == parts[..i] + [parts[i]];
  }

  /** Every token is non-empty and trimmed. */
  lemma {:induction false} CleanWellFormed(parts: seq<string>)
    ensures forall i :: 0 <= i < |Clean(parts)| ==> Clean(parts)[i] != [] && Trimmed(Clean(parts)[i])
    decreases |parts|
  {
    if parts != [] {
      CleanWellFormed(parts[1..]);
    }
  }

  /** A token survives exactly when it is the non-empty trim of some piece. */
  lemma {:induction false} CleanMembers(parts: seq<string>, t: string)
    ensures t in Clean(parts) <==> t != [] && exists p :: p in parts && TrimSpace(p) == t
    decreases |parts|
  {
    if parts != [] {
      CleanMembers(parts[1..], t);
      if t != [] && TrimSpace(parts[0]) != t && (exists p :: p in parts && TrimSpace(p) == t) {
        var p :| p in parts && TrimSpace(p) == t;
        assert p in parts[1..];
      }
    }
  }

  /** The tokens of a comma-separated option value. */
  function Tokens(value: string): (tokens: seq<string>)
  {
    Clean(Split(value, ','))
  }

  /**
    No token is empty, starts or ends with white space, or holds a comma.
   */
  lemma TokensWellFormed(value: string)
    ensures forall i :: 0 <= i < |Tokens(value)| ==>
              Tokens(value)[i] != [] && Trimmed(Tokens(value)[i]) && ',' !in Tokens(value)[i]
  {
    var parts := Split(value, ',');
    SplitPiecesSepFree(value, ',');
    CleanWellFormed(parts);
    forall i | 0 <= i < |Tokens(value)|
      ensures ',' !in Tokens(value)[i]
    {
      var t := Tokens(value)[i];
      CleanMembers(parts, t);
      var p :| p in parts && TrimSpace(p) == t;
      TrimSpaceChars(p);
    }
  }

  /** A value without commas is one piece: one token, or none if it is blank. */
  lemma TokensSingle(value: string)
    requires ',' !in value
    ensures Tokens(value) == if TrimSpace(value) == [] then [] else [TrimSpace(value)]
  {
    SplitNoSep(value, ',');
  }

  /** An empty value has no tokens. */
  lemma TokensOfEmpty()
    ensures Tokens("") == []
  {
    assert Split("", ',') == [""];
  }

  /** The tokens of two values joined by a comma are the tokens of each, in order. */
  lemma TokensConcat(a: string, b: string)
    ensures Tokens(a + [','] + b) == Tokens(a) + Tokens(b)
  {
    SplitConcat(a, b, ',');
    CleanConcat(Split(a, ','), Split(b, ','));
  }

  /** A token is present exactly when some comma-separated piece trims to it. */
  lemma TokensMembers(value: string, t: string)
    ensures t in Tokens(value) <==> t != [] && exists p :: p in Split(value, ',') && TrimSpace(p) == t
  {
    CleanMembers(Split(value, ','), t);
  }

  /** Blank pieces are skipped rather than rejected, wherever they occur. */
  lemma TokensSkipBlank(a: string, blank: string, b: string)
    requires ',' !in blank
    requires forall k :: 0 <= k < |blank| ==> IsSpace(blank[k])
    ensures Tokens(a + [','] + blank + [','] + b) == Tokens(a + [','] + b)
  {
    TrimSpaceAllSpace(blank);
    TokensSingle(blank);
    TokensConcat(a + [','] + blank, b);
    TokensConcat(a, blank);
    TokensConcat(a, b);
  }

  /** A single word without commas or surrounding white space is one token. */
  lemma TokensWord(w: string)
    requires w != [] && ',' !in w && Trimmed(w)
    ensures Tokens(w) == [w]
  {
    SplitNoSep(w, ',');
    TrimSpaceOfTrimmed(w);
  }

  /** White space around a piece does not change its token. */
  lemma TokensPadded(left: string, w: string, right: string)
    requires forall k :: 0 <= k < |left| ==> IsSpace(left[k])
    requires forall k :: 0 <= k < |right| ==> IsSpace(right[k])
    requires w != [] && ',' !in w && Trimmed(w)
    ensures Tokens(left + w + right) == [w]
  {
    var s := left + w + right;
    TrimSpacePadded(left, w, right);
    assert forall k :: 0 <= k < |left| ==> left[k] != ',';
    assert forall k :: 0 <= k < |right| ==> right[k] != ',';
    assert ',' !in s by {
      forall k | 0 <= k < |s| ensures s[k] != ',' {
        if k < |left| {
          assert s[k] == left[k];
        } else if k < |left| + |w| {
          assert s[k] == w[k - |left|];
        } else {
          assert s[k] == right[k - |left| - |w|];
        }
      }
    }
    SplitNoSep(s, ',');
  }

  /** The three spellings of one grouping request give the same tokens. */
  lemma TokensExamples()
    ensures Tokens("pkg,type") == ["pkg", "type"]
    ensures Tokens("pkg,,type") == ["pkg", "type"]
    ensures Tokens(" pkg , type ") == ["pkg", "type"]
  {
    TokensExampleSpellings();
    TokensExamplePlain();
    TokensExampleBlank();
    TokensExamplePadded();
  }

  /** The plain spelling, piece by piece. */
  lemma TokensExamplePlain()
    ensures Tokens("pkg" + [','] + "type") == ["pkg", "type"]
  {
    PkgTypeWords();
    TokensWord("pkg");
    TokensWord("type");
    TokensConcat("pkg", "type");
  }

  /** The spelling with an empty piece, piece by piece. */
  lemma TokensExampleBlank()
    ensures Tokens("pkg" + [','] + "" + [','] + "type") == ["pkg", "type"]
  {
    TokensSkipBlank("pkg", "", "type");
    TokensExamplePlain();
    assert "pkg" + [','] + "" + [','] + "type" == "pkg" + [','] + [','] + "type";
  }

  /** The padded spelling, piece by piece. */
  lemma TokensExamplePadded()
    ensures Tokens((" " + "pkg" + " ") + [','] + (" " + "type" + " ")) == ["pkg", "type"]
  {
    PkgTypeWords();
    TokensPadded(" ", "pkg", " ");
    TokensPadded(" ", "type", " ");
    TokensConcat(" " + "pkg" + " ", " " + "type" + " ");
  }

  /** The two group names are single trimmed words. */
  lemma PkgTypeWords()
    ensures ',' !in "pkg" && Trimmed("pkg")
    ensures ',' !in "type" && Trimmed("type")
    ensures IsSpace(' ')
  {
  }

  /** The example spellings, written as concatenations of their pieces. */
  lemma TokensExampleSpellings()
    ensures "pkg,type" == "pkg" + [','] + "type"
    ensures "pkg,,type" == "pkg" + [','] + "" + [','] + "type"
    ensures " pkg , type " == (" " + "pkg" + " ") + [','] + (" " + "type" + " ")
  {
  }

  /**
    The list options `limit`, `ignore` and `tags` (main.go:71-99): an empty
    value gives no paths; otherwise each piece is trimmed and kept when it is
    not empty.
   */
  method ParseList(value: string) returns (paths: seq<string>)
    ensures paths == Tokens(value)
  {
    paths := [];
    if value != "" {
      var parts := Split(value, ',');
      for i := 0 to |parts|
        invariant paths == Clean(parts[..i])
      {
        var token := TrimSpace(parts[i]);
        CleanSnoc(parts, i);
        if token != "" {
          paths := paths + [token];
        }
      }
      assert parts[..|parts|] == parts;
    } else {
      TokensOfEmpty();
    }
  }

  /** A grouping dimension for the call graph's clusters. */
  datatype Group = Pkg | Type

  /** The token that selects each grouping dimension. */
  function GroupName(g: Group): (name: string)
  {
    match g
    case Pkg => "pkg"
    case Type => "type"
  }

  /** A token that names a grouping dimension. */
  predicate IsGroupToken(t: string)
  {
    t == "pkg" || t == "type"
  }

  /** The dimension a group token names. */
  function GroupOf(t: string): (g: Group)
    requires IsGroupToken(t)
    ensures GroupName(g) == t
  {
    if t == "pkg" then Pkg else Type
  }

  /** The outcome of the `group` option: the dimensions asked for, or an error. */
  datatype GroupOption = GroupBy(groups: set<Group>) | InvalidGroupOption

  /**
    The `group` option's tokens taken one at a time: the first token that is
    not a group name is an error and no partial set is kept; otherwise the
    result is the set of the named dimensions.
   */
  function GroupsOf(tokens: seq<string>): (r: GroupOption)
  {
    if tokens == [] then GroupBy({})
    else if !IsGroupToken(tokens[0]) then InvalidGroupOption
    else
      match GroupsOf(tokens[1..])
      case InvalidGroupOption => InvalidGroupOption
      case GroupBy(gs) => GroupBy({GroupOf(tokens[0])} + gs)
  }

  /**
    The tokens are valid exactly when every one is a group name, and then a
    dimension is selected exactly when its name is among the tokens.
   */
  lemma {:induction false} GroupsOfMeaning(tokens: seq<string>)
    ensures GroupsOf(tokens).GroupBy? <==> forall t :: t in tokens ==> IsGroupToken(t)
    ensures GroupsOf(tokens).GroupBy? ==>
              forall g :: g in GroupsOf(tokens).groups <==> GroupName(g) in tokens
    decreases |tokens|
  {
    if tokens != [] {
      GroupsOfMeaning(tokens[1..]);
      assert forall t :: t in tokens <==> t == tokens[0] || t in tokens[1..];
    }
  }

  /** Only which tokens occur matters, not their order or repetition. */
  lemma GroupsOfBySet(x: seq<string>, y: seq<string>)
    requires forall t :: t in x <==> t in y
    ensures GroupsOf(x) == GroupsOf(y)
  {
    GroupsOfMeaning(x);
    GroupsOfMeaning(y);
    if GroupsOf(x).GroupBy? {
      assert GroupsOf(x).groups == GroupsOf(y).groups;
    }
  }

  /** Reading one more valid token adds its dimension. */
  lemma GroupsOfSnoc(x: seq<string>, t: string)
    requires GroupsOf(x).GroupBy? && IsGroupToken(t)
    ensures GroupsOf(x + [t]) == GroupBy(GroupsOf(x).groups + {GroupOf(t)})
  {
    GroupsOfBySet(x + [t], [t] + x);
    assert ([t] + x)[1..] == x;
  }

  /** One piece that trims to a non-group token makes the whole option invalid. */
  lemma GroupsRejectPiece(parts: seq<string>, i: nat)
    requires i < |parts| && TrimSpace(parts[i]) != [] && !IsGroupToken(TrimSpace(parts[i]))
    ensures GroupsOf(Clean(parts)) == InvalidGroupOption
  {
    CleanMembers(parts, TrimSpace(parts[i]));
    assert parts[i] in parts;
    GroupsOfMeaning(Clean(parts));
  }

  /** One more piece that trims to a group token adds its dimension. */
  lemma GroupsAcceptPiece(parts: seq<string>, i: nat)
    requires i < |parts| && IsGroupToken(TrimSpace(parts[i]))
    requires GroupsOf(Clean(parts[..i])).GroupBy?
    ensures GroupsOf(Clean(parts[..i + 1]))
            == GroupBy(GroupsOf(Clean(parts[..i])).groups + {GroupOf(TrimSpace(parts[i]))})
  {
    CleanSnoc(parts, i);
    GroupsOfSnoc(Clean(parts[..i]), TrimSpace(parts[i]));
  }

  /**
    The `group` option (main.go:57-69): an empty value asks for no grouping;
    otherwise each piece is trimmed, blank ones are skipped, and each one
    left must be `pkg` or `type`.
   */
  method ParseGroups(value: string) returns (r: GroupOption)
    ensures r == GroupsOf(Tokens(value))
  {
    var groupBy: set<Group> := {};
    if value != "" {
      var parts := Split(value, ',');
      for i := 0 to |parts|
        invariant GroupsOf(Clean(parts[..i])) == GroupBy(groupBy)
      {
        var token := TrimSpace(parts[i]);
        if token == "" {
          CleanSnoc(parts, i);
          assert Clean(parts[..i]) + [] == Clean(parts[..i]);
          continue;
        } else if token != "pkg" && token != "type" {
          GroupsRejectPiece(parts, i);
          return InvalidGroupOption;
        } else {
          GroupsAcceptPiece(parts, i);
          groupBy := groupBy + {GroupOf(token)};
        }
      }
      assert parts[..|parts|] == parts;
    } else {
      TokensOfEmpty();
    }
    r := GroupBy(groupBy);
  }

  /**
    The `group` option fails exactly when some comma-separated piece trims to
    a non-empty token other than `pkg` and `type`; otherwise a dimension is
    selected exactly when some piece trims to its name.
   */
  lemma GroupOptionByPieces(value: string)
    ensures GroupsOf(Tokens(value)).InvalidGroupOption?
            <==> exists p :: p in Split(value, ',') && TrimSpace(p) != [] && !IsGroupToken(TrimSpace(p))
    ensures GroupsOf(Tokens(value)).GroupBy? ==>
              forall g :: g in GroupsOf(Tokens(value)).groups
                          <==> exists p :: p in Split(value, ',') && TrimSpace(p) == GroupName(g)
  {
    var tokens := Tokens(value);
    var parts := Split(value, ',');
    GroupsOfMeaning(tokens);
    if GroupsOf(tokens).InvalidGroupOption? {
      var i :| 0 <= i < |tokens| && !IsGroupToken(tokens[i]);
      TokensMembers(value, tokens[i]);
    }
    if exists p :: p in parts && TrimSpace(p) != [] && !IsGroupToken(TrimSpace(p)) {
      var p :| p in parts && TrimSpace(p) != [] && !IsGroupToken(TrimSpace(p));
      TokensMembers(value, TrimSpace(p));
      var i :| 0 <= i < |tokens| && tokens[i] == TrimSpace(p);
    }
    forall g: Group
      ensures GroupName(g) in tokens <==> exists p :: p in parts && TrimSpace(p) == GroupName(g)
    {
      TokensMembers(value, GroupName(g));
    }
  }

  /** The order of the group tokens does not matter: they form a set. */
  lemma GroupOrderIrrelevant(a: string, b: string)
    ensures GroupsOf(Tokens(a + [','] + b)) == GroupsOf(Tokens(b + [','] + a))
  {
    TokensConcat(a, b);
    TokensConcat(b, a);
    GroupsOfBySet(Tokens(a) + Tokens(b), Tokens(b) + Tokens(a));
  }

  /** Concrete values of the `group` option. */
  lemma GroupExamples()
    ensures GroupsOf(Tokens("")) == GroupBy({})
    ensures GroupsOf(Tokens("pkg,type")) == GroupBy({Pkg, Type})
    ensures GroupsOf(Tokens("pkg,,type")) == GroupBy({Pkg, Type})
    ensures GroupsOf(Tokens(" pkg , type ")) == GroupBy({Pkg, Type})
    ensures GroupsOf(Tokens("pkg,foo")) == InvalidGroupOption
  {
    TokensOfEmpty();
    TokensExamples();
    GroupsOfPkgType();
    TokensPkgFoo();
    FooWord();
    assert "foo" in ["pkg", "foo"];
  }

  /** Both names select both dimensions. */
  lemma GroupsOfPkgType()
    ensures GroupsOf(["pkg", "type"]) == GroupBy({Pkg, Type})
  {
    var both := GroupsOf(["pkg", "type"]);
    forall g: Group ensures g in both.groups <==> g in {Pkg, Type} {
      assert GroupName(g) in ["pkg", "type"];
    }
  }

  /** An unknown name after a valid one is still a token of its own. */
  lemma TokensPkgFoo()
    ensures Tokens("pkg,foo") == ["pkg", "foo"]
  {
    PkgTypeWords();
    FooWord();
    TokensWord("pkg");
    TokensWord("foo");
    TokensConcat("pkg", "foo");
    PkgFooSpelling();
  }

  /** `foo` is a single trimmed word that names no dimension. */
  lemma FooWord()
    ensures ',' !in "foo" && Trimmed("foo") && !IsGroupToken("foo")
  {
  }

  /** The spelling `pkg,foo` as a concatenation of its pieces. */
  lemma PkgFooSpelling()
    ensures "pkg,foo" == "pkg" + [','] + "foo"
  {
  }

  /** The configuration `main` hands to `run` and to the graph output. */
  datatype Config = Config(groupBy: set<Group>, limitPaths: seq<string>, ignorePaths: seq<string>, buildTags: seq<string>)

  /** The outcome of reading the options: a configuration, or the fatal group error. */
  datatype ConfigOutcome = Configured(config: Config) | ConfigRejected

  /**
    The option block of `main` (main.go:57-100): the group value is checked
    first and an invalid one stops the program with no configuration;
    otherwise every option is parsed.
   */
  method Configure(groupValue: string, limitValue: string, ignoreValue: string, tagsValue: string)
    returns (r: ConfigOutcome)
    ensures r.ConfigRejected? <==> GroupsOf(Tokens(groupValue)).InvalidGroupOption?
    ensures r.Configured? ==>
              && r.config.groupBy == GroupsOf(Tokens(groupValue)).groups
              && r.config.limitPaths == Tokens(limitValue)
              && r.config.ignorePaths == Tokens(ignoreValue)
              && r.config.buildTags == Tokens(tagsValue)
  {
    var groups := ParseGroups(groupValue);
    if groups.InvalidGroupOption? {
      return ConfigRejected;
    }
    var limitPaths := ParseList(limitValue);
    var ignorePaths := ParseList(ignoreValue);
    var buildTags := ParseList(tagsValue);
    r := Configured(Config(groups.groups, limitPaths, ignorePaths, buildTags));
  }
}
