/** The literal inliner of the SQL builder (FullSql, sql_builder.go:122-182):
    every `?` of a statement is followed by the next argument written as a SQL
    literal. */
module Inliner {
  import opened Wrappers
  import opened Utils

  /** The dynamically typed (`interface{}`) arguments a statement carries. */
  datatype Arg =
    | Int(itype: IntType, i: int)
    | Uint(utype: UintType, u: nat)
    | BigInt(big: int)
    | Bool(b: bool)
    | Str(s: string)
    | Null
      /** A value of any other Go type, with its type name and its printed form. */
    | Other(typeName: string, shown: string)

  // ---------------------------------------------------------------------------
  // String literals

  /** strings.Replace(v, "'", "", -1): every single quote removed. */
  function StripQuotes(s: string): (r: string)
    ensures '\'' !in r
    ensures |r| <= |s|
    ensures '\'' !in s ==> r == s
  {
    if s == "" then ""
    else (if s[0] == '\'' then "" else [s[0]]) + StripQuotes(s[1..])
  }

  /** strings.Replace(v, `\`, `\\`, -1): every backslash doubled. */
  function DoubleBackslashes(s: string): (r: string)
    ensures '\'' in r <==> '\'' in s
    ensures '\\' !in s ==> r == s
  {
    if s == "" then ""
    else (if s[0] == '\\' then "\\\\" else [s[0]]) + DoubleBackslashes(s[1..])
  }

  /** How a MySQL string literal reads `\\`: one backslash. */
  function UnescapeBackslashes(t: string): string
  {
    if t == "" then ""
    else if |t| >= 2 && t[0] == '\\' && t[1] == '\\' then "\\" + UnescapeBackslashes(t[2..])
    else [t[0]] + UnescapeBackslashes(t[1..])
  }

  lemma {:induction false} UnescapeDoubled(s: string)
    ensures UnescapeBackslashes(DoubleBackslashes(s)) == s
  {
    if s != "" {
      var rest := DoubleBackslashes(s[1..]);
      UnescapeDoubled(s[1..]);
      if s[0] == '\\' {
        assert DoubleBackslashes(s) == "\\\\" + rest;
        assert ("\\\\" + rest)[2..] == rest;
      } else {
        assert DoubleBackslashes(s) == [s[0]] + rest;
        assert ([s[0]] + rest)[1..] == rest;
      }
    }
  }

  /** The SQL literal for one argument, or None for a type the inliner refuses.
      Floats are not modelled. */
  function Literal(a: Arg): (r: Option<string>)
    ensures r.None? <==> a.Other?
  {
    match a
    case Int(_, i) => Some(IntToDecimal(i))
    case Uint(_, u) => Some(NatToDecimal(u))
    case BigInt(b) => Some(IntToDecimal(b))
    case Bool(b) => Some(if b then "true" else "false")
    case Str(s) => Some("'" + DoubleBackslashes(StripQuotes(s)) + "'")
    case Null => Some("NULL")
    case Other(_, _) => None
  }

  /** A string argument can never close its literal early: the only quotes are
      the outer two, and the text between them reads back as the argument with
      its quotes removed. */
  lemma StringLiteralIsSafe(s: string)
    ensures var lit := Literal(Str(s)).value;
      && |lit| >= 2 && lit[0] == '\'' && lit[|lit| - 1] == '\''
      && '\'' !in lit[1..|lit| - 1]
      && UnescapeBackslashes(lit[1..|lit| - 1]) == StripQuotes(s)
  {
    var inner := DoubleBackslashes(StripQuotes(s));
    var lit := "'" + inner + "'";
    assert lit[1..|lit| - 1] == inner;
    UnescapeDoubled(StripQuotes(s));
  }

  /** The error FullSql reports for an argument of an unsupported type. */
  function ArgError(a: Arg, sql: string): string
    requires a.Other?
  {
    "invalid sql argument type: " + a.typeName + " => " + a.shown + " (sql: " + sql + ")"
  }

  // ---------------------------------------------------------------------------
  // strings.Split(s, "?") and strings.Join(segs, "?")

  function CountChar(s: string, c: char): (n: nat)
    ensures n <= |s|
  {
    if s == "" then 0
    else CountChar(s[..|s| - 1], c) + (if s[|s| - 1] == c then 1 else 0)
  }

  /** c occurs in s exactly when its count is positive. */
  lemma {:induction false} CountZero(s: string, c: char)
    ensures CountChar(s, c) == 0 <==> c !in s
    decreases |s|
  {
    if s != "" {
      var init := s[..|s| - 1];
      CountZero(init, c);
      assert s == init + [s[|s| - 1]];
    }
  }

  function LastIndexOf(s: string, c: char): (r: int)
    ensures -1 <= r < |s|
    ensures r >= 0 ==> s[r] == c
    ensures forall j :: r < j < |s| ==> s[j] != c
  {
    if s == "" then -1
    else if s[|s| - 1] == c then |s| - 1
    else LastIndexOf(s[..|s| - 1], c)
  }

  /** strings.Split(s, "?"): the text between consecutive question marks. */
  function Split(s: string): (segs: seq<string>)
    ensures |segs| >= 1
    ensures forall k :: 0 <= k < |segs| ==> '?' !in segs[k]
    decreases |s|
  {
    var i := LastIndexOf(s, '?');
    if i < 0 then [s]
    else
      assert '?' !in s[i + 1..];
      Split(s[..i]) + [s[i + 1..]]
  }

  /** strings.Join(segs, "?"). */
  function Join(segs: seq<string>): string
    requires |segs| >= 1
  {
    if |segs| == 1 then segs[0] else Join(segs[..|segs| - 1]) + "?" + segs[|segs| - 1]
  }

  lemma {:induction false} JoinSplit(s: string)
    ensures Join(Split(s)) == s
    ensures |Split(s)| == CountChar(s, '?') + 1
    decreases |s|
  {
    var i := LastIndexOf(s, '?');
    if i >= 0 {
      JoinSplit(s[..i]);
      var segs := Split(s);
      assert segs[..|segs| - 1] == Split(s[..i]);
      assert s == s[..i] + "?" + s[i + 1..];
      CountPlain(s[..i] + "?", s[i + 1..], '?');
      assert (s[..i] + "?")[..i] == s[..i];
    } else {
      assert '?' !in s;
      CountZero(s, '?');
    }
  }

  /** Appending text without c leaves the count of c unchanged. */
  lemma {:induction false} CountPlain(x: string, seg: string, c: char)
    requires c !in seg
    ensures CountChar(x + seg, c) == CountChar(x, c)
    decreases |seg|
  {
    if seg != "" {
      var init := seg[..|seg| - 1];
      assert (x + seg)[..|x + seg| - 1] == x + init;
      assert (x + seg)[|x + seg| - 1] == seg[|seg| - 1];
      assert c !in init;
      CountPlain(x, init, c);
    } else {
      assert x + seg == x;
    }
  }

  /** Counting distributes over concatenation. */
  lemma {:induction false} CountConcat(a: string, b: string, c: char)
    ensures CountChar(a + b, c) == CountChar(a, c) + CountChar(b, c)
    decreases |b|
  {
    if b == "" {
      assert a + b == a;
    } else {
      var init := b[..|b| - 1];
      assert (a + b)[..|a + b| - 1] == a + init;
      assert (a + b)[|a + b| - 1] == b[|b| - 1];
      CountConcat(a, init, c);
    }
  }

  // ---------------------------------------------------------------------------
  // The inliner

  /** The state of FullSql's loop after the first n segments: the text built so
      far and the index of the next argument, or the error it stopped with. */
  function InlineUpTo(sql: string, segs: seq<string>, args: seq<Arg>, n: nat): (r: Result<(string, nat), string>)
    requires n <= |segs|
    ensures r.Success? ==> r.value.1 == if n < |args| then n else |args|
    decreases n
  {
    if n == 0 then Success(("", 0))
    else
      match InlineUpTo(sql, segs, args, n - 1)
      case Failure(e) => Failure(e)
      case Success((ret, k)) =>
        if k < |args| then
          match Literal(args[k])
          case None => Failure(ArgError(args[k], sql))
          case Some(lit) => Success((ret + segs[n - 1] + lit, k + 1))
        else Success((ret + segs[n - 1], k))
  }

  /** The loop stops with an error exactly when one of the arguments it has
      reached so far has an unsupported type. */
  lemma {:induction false} InlineUpToFails(sql: string, segs: seq<string>, args: seq<Arg>, n: nat)
    requires n <= |segs|
    ensures InlineUpTo(sql, segs, args, n).Failure? <==> exists j :: 0 <= j < n && j < |args| && args[j].Other?
    decreases n
  {
    if n > 0 {
      InlineUpToFails(sql, segs, args, n - 1);
      if InlineUpTo(sql, segs, args, n - 1).Success? && n - 1 < |args| {
        assert InlineUpTo(sql, segs, args, n - 1).value.1 == n - 1;
        assert InlineUpTo(sql, segs, args, n).Failure? <==> args[n - 1].Other?;
      }
    }
  }

  /** Once the loop has stopped with an error, the error is the outcome. */
  lemma {:induction false} InlineFailureSticks(sql: string, segs: seq<string>, args: seq<Arg>, n: nat, m: nat)
    requires n <= m <= |segs|
    requires InlineUpTo(sql, segs, args, n).Failure?
    ensures InlineUpTo(sql, segs, args, m) == InlineUpTo(sql, segs, args, n)
    decreases m - n
  {
    if n < m {
      InlineFailureSticks(sql, segs, args, n, m - 1);
    }
  }

  /** What FullSql(sql, args...) returns. */
  function Inline(sql: string, args: seq<Arg>): Result<string, string>
  {
    if '?' !in sql then Success(sql)
    else
      var segs := Split(sql);
      match InlineUpTo(sql, segs, args, |segs|)
      case Failure(e) => Failure(e)
      case Success((ret, _)) => Success(ret)
  }

  /** FullSql: split on `?`, then append each segment followed by the next
      argument's literal while arguments remain. */
  method FullSql(str: string, args: seq<Arg>) returns (r: Result<string, string>)
    ensures r == Inline(str, args)
  {
    if '?' !in str {
      return Success(str);
    }
    var sons := Split(str);
    var ret := "";
    var argIndex := 0;
    var maxArgIndex := |args|;
    for i := 0 to |sons|
      invariant InlineUpTo(str, sons, args, i) == Success((ret, argIndex))
    {
      ret := ret + sons[i];
      if argIndex < maxArgIndex {
        var lit := Literal(args[argIndex]);
        if lit.None? {
          InlineFailureSticks(str, sons, args, i + 1, |sons|);
          return Failure(ArgError(args[argIndex], str));
        }
        ret := ret + lit.value;
        argIndex := argIndex + 1;
      }
    }
    return Success(ret);
  }

  // ---------------------------------------------------------------------------
  // An independent reading: placeholder substitution character by character

  /** The literals of arguments the inliner accepts. */
  function Literals(args: seq<Arg>): (lits: seq<string>)
    requires forall j :: 0 <= j < |args| ==> !args[j].Other?
    ensures |lits| == |args|
    ensures forall j :: 0 <= j < |args| ==> Some(lits[j]) == Literal(args[j])
  {
    seq(|args|, j requires 0 <= j < |args| => Literal(args[j]).value)
  }

  /** Every `?` of s replaced by the literal whose index is the number of `?`
      before it, or by nothing once the literals run out. */
  function Substitute(s: string, lits: seq<string>): string
  {
    if s == "" then ""
    else
      var init := s[..|s| - 1];
      var k := CountChar(init, '?');
      Substitute(init, lits)
      + (if s[|s| - 1] != '?' then [s[|s| - 1]] else if k < |lits| then lits[k] else "")
  }

  lemma {:induction false} SubstitutePlain(x: string, seg: string, lits: seq<string>)
    requires '?' !in seg
    ensures Substitute(x + seg, lits) == Substitute(x, lits) + seg
    decreases |seg|
  {
    if seg != "" {
      var init := seg[..|seg| - 1];
      assert (x + seg)[..|x + seg| - 1] == x + init;
      assert (x + seg)[|x + seg| - 1] == seg[|seg| - 1];
      assert '?' !in init;
      SubstitutePlain(x, init, lits);
    } else {
      assert x + seg == x;
    }
  }

  lemma SubstituteNothing(s: string, lits: seq<string>)
    requires '?' !in s
    ensures Substitute(s, lits) == s
  {
    SubstitutePlain("", s, lits);
    assert "" + s == s;
  }

  /** The segments, each followed by a `?`. */
  function Terminated(segs: seq<string>): string
  {
    if segs == [] then "" else Terminated(segs[..|segs| - 1]) + segs[|segs| - 1] + "?"
  }

  lemma {:induction false} TerminatedJoin(segs: seq<string>)
    requires |segs| >= 1
    ensures Terminated(segs) == Join(segs) + "?"
    decreases |segs|
  {
    if |segs| > 1 {
      var init := segs[..|segs| - 1];
      TerminatedJoin(init);
      assert init[..|init| - 1] == segs[..|segs| - 2];
    } else {
      assert segs[..0] == [];
    }
  }

  /** A `?` appended at the end is replaced by the literal its count selects. */
  lemma SubstituteQuestion(y: string, lits: seq<string>)
    ensures CountChar(y + "?", '?') == CountChar(y, '?') + 1
    ensures Substitute(y + "?", lits)
      == Substitute(y, lits) + (if CountChar(y, '?') < |lits| then lits[CountChar(y, '?')] else "")
  {
    assert (y + "?")[..|y + "?"| - 1] == y;
  }

  /** One turn of FullSql's loop, on a state that has not failed. */
  lemma InlineStep(sql: string, segs: seq<string>, args: seq<Arg>, n: nat)
    requires 0 < n <= |segs|
    requires InlineUpTo(sql, segs, args, n - 1).Success?
    requires n - 1 < |args| ==> !args[n - 1].Other?
    ensures var ret := InlineUpTo(sql, segs, args, n - 1).value.0;
      InlineUpTo(sql, segs, args, n)
      == Success((ret + segs[n - 1] + (if n - 1 < |args| then Literal(args[n - 1]).value else ""),
                  if n < |args| then n else |args|))
  {
    var ret := InlineUpTo(sql, segs, args, n - 1).value.0;
    if n - 1 >= |args| {
      assert ret + segs[n - 1] + "" == ret + segs[n - 1];
    }
  }

  /** Every segment of segs[..n] is followed by one `?`. */
  lemma {:induction false} TerminatedCount(segs: seq<string>, n: nat)
    requires n <= |segs|
    requires forall k :: 0 <= k < |segs| ==> '?' !in segs[k]
    ensures CountChar(Terminated(segs[..n]), '?') == n
    decreases n
  {
    if n > 0 {
      TerminatedCount(segs, n - 1);
      TerminatedStep(segs, n);
      CountPlain(Terminated(segs[..n - 1]), segs[n - 1], '?');
      SubstituteQuestion(Terminated(segs[..n - 1]) + segs[n - 1], []);
    } else {
      assert segs[..0] == [];
    }
  }

  /** The first n turns of FullSql's loop substitute the literals into the
      first n segments, each followed by its placeholder. */
  lemma {:induction false} InlineUpToSubstitutes(sql: string, segs: seq<string>, args: seq<Arg>, n: nat)
    requires n <= |segs|
    requires forall k :: 0 <= k < |segs| ==> '?' !in segs[k]
    requires forall j :: 0 <= j < |args| ==> !args[j].Other?
    ensures InlineUpTo(sql, segs, args, n).Success?
    ensures InlineUpTo(sql, segs, args, n).value.0 == Substitute(Terminated(segs[..n]), Literals(args))
    decreases n
  {
    if n > 0 {
      InlineUpToSubstitutes(sql, segs, args, n - 1);
      TerminatedCount(segs, n - 1);
      SubstitutesStep(sql, segs, args, n);
    } else {
      assert segs[..0] == [];
    }
  }

  /** The inductive step of InlineUpToSubstitutes. */
  lemma SubstitutesStep(sql: string, segs: seq<string>, args: seq<Arg>, n: nat)
    requires 0 < n <= |segs| && '?' !in segs[n - 1]
    requires forall j :: 0 <= j < |args| ==> !args[j].Other?
    requires CountChar(Terminated(segs[..n - 1]), '?') == n - 1
    requires InlineUpTo(sql, segs, args, n - 1).Success?
    requires InlineUpTo(sql, segs, args, n - 1).value.0 == Substitute(Terminated(segs[..n - 1]), Literals(args))
    ensures InlineUpTo(sql, segs, args, n).Success?
    ensures InlineUpTo(sql, segs, args, n).value.0 == Substitute(Terminated(segs[..n]), Literals(args))
  {
    var lits := Literals(args);
    var prev := Terminated(segs[..n - 1]);
    TerminatedStep(segs, n);
    SubstituteSegment(prev, segs[n - 1], lits, n);
    if n - 1 < |args| {
      assert Some(lits[n - 1]) == Literal(args[n - 1]);
    }
    InlineStep(sql, segs, args, n);
  }

  /** Appending a segment without `?` and one placeholder: the n-th `?` takes
      the n-th literal, if there is one. */
  lemma SubstituteSegment(prev: string, seg: string, lits: seq<string>, n: nat)
    requires 0 < n && CountChar(prev, '?') == n - 1 && '?' !in seg
    ensures CountChar(prev + seg + "?", '?') == n
    ensures Substitute(prev + seg + "?", lits)
      == Substitute(prev, lits) + seg + (if n - 1 < |lits| then lits[n - 1] else "")
  {
    SubstitutePlain(prev, seg, lits);
    CountPlain(prev, seg, '?');
    SubstituteQuestion(prev + seg, lits);
  }

  lemma TerminatedStep(segs: seq<string>, n: nat)
    requires 0 < n <= |segs|
    ensures Terminated(segs[..n]) == Terminated(segs[..n - 1]) + segs[n - 1] + "?"
  {
    assert segs[..n][..n - 1] == segs[..n - 1];
  }

  /** FullSql as placeholder substitution: on a statement with `?`, the result
      is that of substituting into the statement with one more `?` at its end;
      so an argument beyond the last placeholder lands at the very end, and
      placeholders without an argument vanish. */
  lemma InlineIsSubstitution(s: string, args: seq<Arg>)
    requires '?' in s
    requires forall j :: 0 <= j < |args| ==> !args[j].Other?
    ensures Inline(s, args) == Success(Substitute(s + "?", Literals(args)))
  {
    var segs := Split(s);
    InlineUpToSubstitutes(s, segs, args, |segs|);
    assert segs[..|segs|] == segs;
    TerminatedJoin(segs);
    JoinSplit(s);
  }

  /** With no more arguments than placeholders, each argument's literal takes
      the place of its placeholder, and remaining placeholders vanish. */
  lemma InlineFillsPlaceholders(s: string, args: seq<Arg>)
    requires |args| <= CountChar(s, '?')
    requires forall j :: 0 <= j < |args| ==> !args[j].Other?
    ensures Inline(s, args) == Success(Substitute(s, Literals(args)))
  {
    if '?' in s {
      InlineIsSubstitution(s, args);
      SubstituteQuestion(s, Literals(args));
      assert Substitute(s, Literals(args)) + "" == Substitute(s, Literals(args));
    } else {
      SubstituteNothing(s, Literals(args));
    }
  }

  /** One argument more than placeholders: its literal is appended at the end. */
  lemma InlineExtraArgument(s: string, args: seq<Arg>)
    requires '?' in s && |args| == CountChar(s, '?') + 1
    requires forall j :: 0 <= j < |args| ==> !args[j].Other?
    ensures Inline(s, args) == Success(Substitute(s, Literals(args)) + Literals(args)[|args| - 1])
  {
    InlineIsSubstitution(s, args);
    SubstituteQuestion(s, Literals(args));
  }

  /** FullSql fails exactly when an argument it reaches, one of the first
      (placeholders + 1), has an unsupported type. */
  lemma InlineFails(s: string, args: seq<Arg>)
    ensures Inline(s, args).Failure? <==>
      '?' in s && exists j :: 0 <= j <= CountChar(s, '?') && j < |args| && args[j].Other?
  {
    if '?' in s {
      JoinSplit(s);
      InlineUpToFails(s, Split(s), args, |Split(s)|);
    }
  }

  lemma Eighteen()
    ensures Literal(Int(GoInt, 18)) == Some("18")
  {
    DecimalEighteen();
  }

  lemma DecimalEighteen()
    ensures NatToDecimal(18) == "18"
  {
    assert NatToDecimal(1) == "1";
    assert DigitChar(8) == '8';
  }

  /** The one-placeholder query from the builder's documentation. */
  lemma InlineExample()
    ensures Inline("age > ?", [Int(GoInt, 18)]) == Success("age > 18")
  {
    var args := [Int(GoInt, 18)];
    Eighteen();
    assert Literals(args) == ["18"];
    InlineFillsPlaceholders("age > ?", args);
    AgeSubstitution();
  }

  lemma AgeSubstitution()
    ensures Substitute("age > ?", ["18"]) == "age > 18"
  {
    assert "age > ?" == "age > " + "?";
    assert '?' !in "age > ";
    CountZero("age > ", '?');
    SubstituteQuestion("age > ", ["18"]);
    SubstituteNothing("age > ", ["18"]);
  }
}
