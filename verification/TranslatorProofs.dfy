/** When translating a printed annotation gives its compositional translation:
    exactly when no union in it both starts and ends with a bracketed generic. */
module TranslatorProofs {
  import opened Options
  import opened TypeStrings
  import opened TypeTranslator

  // ----- which branch the translator takes -----

  /** Text with a structural character is neither a built-in nor a class name. */
  lemma NotAToken(t: string, env: Env, i: nat)
    requires PlainEnv(env) && i < |t| && !PlainChar(t[i])
    ensures MapType(t).None? && t !in env.known
  {
  }

  lemma {:induction false} LeafPrint(a: Ann)
    requires Leaf(a)
    ensures Print(a) == Glue(Parts(a), ".")
  {
    if a.Attribute? {
      LeafPrint(a.value);
      GlueAppend(Parts(a.value), [a.attr], ".");
    }
  }

  lemma DottedIsNoBuiltIn(t: string)
    requires '.' in t
    ensures MapType(t).None?
  {
  }

  lemma BuiltInTable(t: string)
    ensures MapType(t) == if t in BUILT_IN then Some(BUILT_IN[t]) else None
  {
  }

  /** A leaf is a built-in name or a reference. */
  lemma LeafIs(a: Ann, env: Env)
    requires Leaf(a)
    ensures LeafType(a, env)
         == if MapType(Print(a)).Some? then MapType(Print(a)).value else Reference(Print(a), env)
  {
    LeafPrint(a);
    match a {
      case NoneConst => BuiltInTable("None");
      case Name(id) => BuiltInTable(id);
      case Attribute(value, _) =>
        assert Print(a)[|Print(value)|] == '.';
        DottedIsNoBuiltIn(Print(a));
    }
  }

  lemma LeafTranslates(a: Ann, env: Env, fuel: nat)
    requires Leaf(a) && fuel > 0
    ensures Translate(Print(a), env, fuel) == Some(LeafType(a, env))
  {
    var t := Print(a);
    LeafPlain(a);
    assert PlainChar(t[|t| - 1]) && PlainChar(t[0]);
    StripPadded(t);
    LeafIs(a, env);
  }

  /** What every name becomes: the built-in ones theirs, a known enum its name
      with Value appended, any other name itself, dotted or not. */
  lemma NamesTranslate(a: Ann, env: Env, fuel: nat)
    requires Leaf(a) && fuel > 0
    ensures var r := Translate(Print(a), env, fuel);
      && (a == Name("str") ==> r == Some("string"))
      && (a == Name("int") || a == Name("float") ==> r == Some("number"))
      && (a == Name("bool") ==> r == Some("boolean"))
      && (a == Name("Any") ==> r == Some("unknown"))
      && (a == NoneConst || a == Name("None") || a == Name("NoneType") ==> r == Some("null"))
    ensures a.Attribute? || (a.Name? && a.id !in {"str", "int", "float", "bool", "Any", "None", "NoneType"}) ==>
      var name := Glue(Parts(a), ".");
      Translate(Print(a), env, fuel) == Some(if name in env.known && name in env.enums then name + "Value" else name)
  {
    LeafTranslates(a, env, fuel);
  }

  lemma InnerText(h: string, x: string)
    ensures Bracketed(h + "[" + x + "]", h + "[") && Inner(h + "[" + x + "]", h + "[") == x
  {
    var t := h + "[" + x + "]";
    assert t[..|h| + 1] == h + "[";
    assert t[|h| + 1..|t| - 1] == x;
  }

  /** The branch taken on the text of a generic. */
  lemma GenericStep(name: string, x: string, env: Env, fuel: nat)
    requires name == "Optional" || name == "list" || name == "dict"
    requires PlainEnv(env) && fuel > 0 && Trimmed(name + "[" + x + "]")
    ensures var r := Translate(name + "[" + x + "]", env, fuel);
      r == if name == "Optional" then
             var i := Translate(x, env, fuel - 1); if i.None? then None else Some(i.value + " | null")
           else if name == "dict" then TranslateDict(Split(x, ','), env, fuel - 1)
           else var i := Translate(x, env, fuel - 1); if i.None? then None else Some("Array<" + i.value + ">")
  {
    var t := name + "[" + x + "]";
    StripPadded(t);
    NotAToken(t, env, |name|);
    InnerText(name, x);
    assert name == "Optional" ==> name + "[" == "Optional[";
    assert name == "dict" ==> name + "[" == "dict[" && t[0] == 'd';
    assert name == "list" ==> name + "[" == "list[" && t[0] == 'l';
  }

  /** A dict without exactly two arguments becomes a record of anything. */
  lemma OddDict(x: string, env: Env, fuel: nat)
    requires PlainEnv(env) && fuel > 0 && Trimmed("dict" + "[" + x + "]") && |Split(x, ',')| != 2
    ensures Translate("dict" + "[" + x + "]", env, fuel) == Some("Record<string, unknown>")
  {
    GenericStep("dict", x, env, fuel);
    assert "Record<" + "string" + ", " + "unknown" + ">" == "Record<string, unknown>";
  }

  /** A union that is not taken for a generic is split at its bars. */
  lemma UnionStep(t: string, env: Env, fuel: nat)
    requires PlainEnv(env) && fuel > 0 && Trimmed(t) && '|' in t
    requires !Bracketed(t, "Optional[") && !Bracketed(t, "dict[") && !Bracketed(t, "list[")
    ensures var r := TranslateAll(Split(t, '|'), env, fuel - 1);
            Translate(t, env, fuel) == if r.None? then None else Some(Glue(r.value, " | "))
  {
    StripPadded(t);
    var i :| 0 <= i < |t| && t[i] == '|';
    NotAToken(t, env, i);
  }

  /** A union starts with the text of its first member and a space. */
  lemma {:induction false} FirstText(a: Ann) returns (rest: string)
    requires a.BitOr?
    ensures Print(a) == Print(First(a)) + " " + rest && rest != "" && rest[0] == '|'
  {
    if a.left.BitOr? {
      var r := FirstText(a.left);
      rest := r + " | " + Print(a.right);
      assert Print(a) == Print(First(a)) + " " + rest;
    } else {
      rest := "| " + Print(a.right);
      assert " | " == " " + "| ";
      assert Print(a) == Print(First(a)) + " " + rest;
    }
  }

  lemma LeafFirstNotBracketed(leaf: string, rest: string, h: string)
    requires Plain(leaf) && Plain(h)
    ensures !Bracketed(leaf + " " + rest, h + "[")
  {
    var t, head := leaf + " " + rest, h + "[";
    if |t| > |head| {
      if |leaf| <= |h| {
        assert t[..|head|][|leaf|] == ' ' != head[|leaf|];
      } else {
        assert t[..|head|][|h|] == leaf[|h|] != head[|h|];
      }
    }
  }

  lemma {:induction false} FirstInGrammar(a: Ann)
    requires InGrammar(a)
    ensures InGrammar(First(a)) && !First(a).BitOr?
  {
    if a.BitOr? { FirstInGrammar(a.left); }
  }

  lemma UnionNotBracketed(a: Ann, h: string)
    requires InGrammar(a) && a.BitOr? && !Misread(a) && Plain(h)
    ensures !Bracketed(Print(a), h + "[")
  {
    PrintShape(a);
    if Last(a).Subscript? {
      FirstInGrammar(a);
      LeafPlain(First(a));
      var rest := FirstText(a);
      LeafFirstNotBracketed(Print(First(a)), rest, h);
    }
  }

  lemma UnionBranch(a: Ann, env: Env, fuel: nat)
    requires InGrammar(a) && a.BitOr? && !Misread(a) && PlainEnv(env) && fuel > 0
    ensures var r := TranslateAll(Split(Print(a), '|'), env, fuel - 1);
            Translate(Print(a), env, fuel) == if r.None? then None else Some(Glue(r.value, " | "))
  {
    PrintForms(a);
    PrintShape(a);
    UnionNotBracketed(a, "Optional");
    UnionNotBracketed(a, "dict");
    UnionNotBracketed(a, "list");
    assert "Optional" + "[" == "Optional[" && "dict" + "[" == "dict[" && "list" + "[" == "list[";
    assert Print(a)[|Print(a.left)| + 1] == '|';
    UnionStep(Print(a), env, fuel);
  }

  // ----- members of a union -----

  lemma {:induction false} AllAppend(p: seq<string>, q: seq<string>, env: Env, fuel: nat)
    ensures var x, y := TranslateAll(p, env, fuel), TranslateAll(q, env, fuel);
            TranslateAll(p + q, env, fuel) == if x.None? || y.None? then None else Some(x.value + y.value)
    decreases |p|
  {
    if p == [] {
      assert p + q == q;
      var y := TranslateAll(q, env, fuel);
      if y.Some? { assert [] + y.value == y.value; }
    } else {
      AllAppend(p[1..], q, env, fuel);
      assert (p + q)[0] == p[0] && (p + q)[1..] == p[1..] + q;
      var f, x, y := Translate(p[0], env, fuel), TranslateAll(p[1..], env, fuel), TranslateAll(q, env, fuel);
      if f.Some? && x.Some? && y.Some? {
        assert [f.value] + (x.value + y.value) == [f.value] + x.value + y.value;
      }
    }
  }

  /** Text that does not end in a bar is split independently of what follows one. */
  lemma {:induction false} CutConcat(d: int, cur: string, x: string, y: string, sep: char)
    requires (sep == ',' || sep == '|') && d + Depth(x) == 0
    requires if x == "" then cur != "" else x[|x| - 1] != sep
    ensures Cut(d, cur, x + [sep] + y, sep) == Cut(d, cur, x, sep) + Cut(0, "", y, sep)
    decreases |x|
  {
    var all := x + [sep] + y;
    if x == "" {
      assert all == [sep] + y && all[1..] == y;
    } else {
      assert all[0] == x[0] && all[1..] == x[1..] + [sep] + y;
      if x[0] == sep && d == 0 {
        CutConcat(0, "", x[1..], y, sep);
      } else {
        CutConcat(d + Delta(x[0]), cur + [x[0]], x[1..], y, sep);
      }
    }
  }

  predicate Pad(s: string) {
    s == "" || s == " "
  }

  lemma PaddedSolid(pre: string, p: string, post: string)
    requires Pad(pre) && Pad(post) && Shaped(p) && NoCut(0, p, '|')
    ensures Split(pre + p + post, '|') == [pre + p + post] && Strip(pre + p + post) == p
  {
    assert " "[1..] == "";
    assert forall s :: Pad(s) ==> Depth(s) == 0 && NoCut(0, s, '|');
    DepthAppend(pre, p);
    DepthAppend(pre + p, post);
    NoCutCat(pre, p, '|');
    NoCutCat(pre + p, post, '|');
    SplitOne(pre + p + post, '|');
    StripPadded(p);
    assert "" + p + "" == p && "" + p + " " == p + " " && " " + p + "" == " " + p;
  }

  /** Splitting a printed union separates its two sides. */
  lemma SplitUnion(a: Ann, pre: string, post: string)
    requires InGrammar(a) && a.BitOr? && Pad(pre) && Pad(post)
    ensures Split(pre + Print(a) + post, '|')
         == Split(pre + Print(a.left) + " ", '|') + Split(" " + Print(a.right) + post, '|')
  {
    var x, y := pre + Print(a.left) + " ", " " + Print(a.right) + post;
    UnionText(pre, Print(a.left), Print(a.right), post);
    PrintShape(a.left);
    PadDepth(pre, Print(a.left));
    CutConcat(0, "", x, y, '|');
  }

  lemma UnionText(pre: string, l: string, r: string, post: string)
    ensures pre + (l + " | " + r) + post == pre + l + " " + "|" + (" " + r + post)
  {
    assert " | " == " " + "|" + " ";
  }

  lemma PadDepth(pre: string, l: string)
    requires Pad(pre) && Depth(l) == 0
    ensures Depth(pre + l + " ") == 0
  {
    assert " "[1..] == "";
    DepthAppend(pre, l);
    DepthAppend(pre + l, " ");
  }

  lemma StripSame(s: string, p: string, env: Env, fuel: nat)
    requires Strip(s) == p && Trimmed(p)
    ensures Translate(s, env, fuel) == Translate(p, env, fuel)
  {
    StripPadded(p);
  }

  // ----- the translation is exact where nothing is misread -----

  function Max(a: nat, b: nat): nat {
    if a >= b then a else b
  }

  /** Enough recursion depth for an annotation. */
  function Height(a: Ann): nat {
    match a
    case Subscript(_, args) => 1 + HeightAll(args)
    case BitOr(left, right) => 1 + Max(Height(left), Height(right))
    case _ => 1
  }

  function HeightAll(args: seq<Ann>): nat {
    if args == [] then 0 else Max(Height(args[0]), HeightAll(args[1..]))
  }

  lemma {:induction false} HeightOfArg(args: seq<Ann>, i: nat)
    requires i < |args|
    ensures Height(args[i]) <= HeightAll(args)
  {
    if i > 0 { HeightOfArg(args[1..], i - 1); }
  }

  /** The translations of the members of a union. */
  function DirectMembers(a: Ann, env: Env): (r: seq<string>)
    requires InGrammar(a)
    ensures r != []
  {
    if a.BitOr? then DirectMembers(a.left, env) + DirectMembers(a.right, env) else [Direct(a, env)]
  }

  lemma {:induction false} GlueAppend(p: seq<string>, q: seq<string>, sep: string)
    requires p != [] && q != []
    ensures Glue(p + q, sep) == Glue(p, sep) + sep + Glue(q, sep)
    decreases |p|
  {
    assert (p + q)[0] == p[0];
    if |p| == 1 {
      assert (p + q)[1..] == q;
    } else {
      GlueAppend(p[1..], q, sep);
      assert (p + q)[1..] == p[1..] + q;
      Regroup(p[0] + sep, Glue(p[1..], sep), sep, Glue(q, sep));
    }
  }

  lemma Regroup(a: string, b: string, c: string, d: string)
    ensures a + (b + c + d) == a + b + c + d
  {
  }

  lemma {:induction false} GlueMembers(a: Ann, env: Env)
    requires InGrammar(a)
    ensures Glue(DirectMembers(a, env), " | ") == Direct(a, env)
  {
    if a.BitOr? {
      GlueMembers(a.left, env);
      GlueMembers(a.right, env);
      GlueAppend(DirectMembers(a.left, env), DirectMembers(a.right, env), " | ");
    }
  }

  /** The two arguments of a dict are separated again. */
  lemma DictParts(k: string, v: string)
    requires Shaped(k) && Shaped(v)
    ensures Split(k + ", " + v, ',') == [k, " " + v] && Strip(" " + v) == v
  {
    assert k + ", " + v == k + "," + (" " + v);
    SplitTwo(k, " " + v, ',');
    assert " "[1..] == "";
    DepthAppend(" ", v);
    NoCutCat(" ", v, ',');
    SplitOne(" " + v, ',');
    StripPadded(v);
  }

  lemma DictStep(k: string, v: string, env: Env, fuel: nat)
    requires Shaped(k) && Shaped(v) && PlainEnv(env) && fuel > 0
    ensures var x, y := Translate(k, env, fuel - 1), Translate(v, env, fuel - 1);
      Translate("dict" + "[" + (k + ", " + v) + "]", env, fuel)
        == if x.None? || y.None? then None else Some("Record<" + x.value + ", " + y.value + ">")
  {
    DictParts(k, v);
    StripSame(" " + v, v, env, fuel - 1);
    GenericStep("dict", k + ", " + v, env, fuel);
  }

  lemma MemberStep(pre: string, p: string, post: string, env: Env, fuel: nat)
    requires Pad(pre) && Pad(post) && Shaped(p) && NoCut(0, p, '|')
    ensures var x := Translate(p, env, fuel);
      TranslateAll(Split(pre + p + post, '|'), env, fuel) == if x.None? then None else Some([x.value])
  {
    var s := pre + p + post;
    PaddedSolid(pre, p, post);
    StripSame(s, p, env, fuel);
    assert [s][1..] == [];
    assert TranslateAll([], env, fuel) == Some([]);
    var x := Translate(p, env, fuel);
    if x.Some? { assert [x.value] + [] == [x.value]; }
  }

  /** Optional and list around a translated argument. */
  function Wrap(generic: Ann, x: string): string {
    if generic == Name("Optional") then x + " | null" else "Array<" + x + ">"
  }

  lemma OneArgument(a: Ann, env: Env, fuel: nat)
    requires InGrammar(a) && a.Subscript? && |a.args| == 1 && PlainEnv(env) && fuel > 0
    ensures InGrammar(a.args[0]) && Direct(a, env) == Wrap(a.generic, Direct(a.args[0], env))
    ensures var x := Translate(Print(a.args[0]), env, fuel - 1);
            Translate(Print(a), env, fuel) == if x.None? then None else Some(Wrap(a.generic, x.value))
  {
    PrintShape(a);
    PrintForms(a);
    GenericStep(a.generic.id, Print(a.args[0]), env, fuel);
  }

  lemma TwoArguments(a: Ann, env: Env, fuel: nat)
    requires InGrammar(a) && a.Subscript? && |a.args| != 1 && PlainEnv(env) && fuel > 0
    ensures |a.args| == 2 && InGrammar(a.args[0]) && InGrammar(a.args[1])
    ensures Direct(a, env) == "Record<" + Direct(a.args[0], env) + ", " + Direct(a.args[1], env) + ">"
    ensures var x, y := Translate(Print(a.args[0]), env, fuel - 1), Translate(Print(a.args[1]), env, fuel - 1);
            Translate(Print(a), env, fuel)
              == if x.None? || y.None? then None else Some("Record<" + x.value + ", " + y.value + ">")
  {
    PrintForms(a);
    PrintShape(a.args[0]);
    PrintShape(a.args[1]);
    DictStep(Print(a.args[0]), Print(a.args[1]), env, fuel);
  }

  lemma ExactUnion(a: Ann, env: Env, fuel: nat)
    requires InGrammar(a) && a.BitOr? && !Misread(a) && PlainEnv(env) && fuel > 0
    requires TranslateAll(Split(Print(a), '|'), env, fuel - 1) == Some(DirectMembers(a, env))
    ensures Translate(Print(a), env, fuel) == Some(Direct(a, env))
  {
    UnionBranch(a, env, fuel);
    GlueMembers(a, env);
  }

  lemma ExactLeaf(a: Ann, env: Env, fuel: nat)
    requires InGrammar(a) && !a.BitOr? && !a.Subscript? && fuel > 0
    ensures Translate(Print(a), env, fuel) == Some(Direct(a, env))
  {
    LeafTranslates(a, env, fuel);
  }

  lemma ExactOne(a: Ann, env: Env, fuel: nat)
    requires InGrammar(a) && a.Subscript? && |a.args| == 1 && PlainEnv(env) && fuel > 0
    requires InGrammar(a.args[0]) && Translate(Print(a.args[0]), env, fuel - 1) == Some(Direct(a.args[0], env))
    ensures Translate(Print(a), env, fuel) == Some(Direct(a, env))
  {
    OneArgument(a, env, fuel);
  }

  lemma ExactTwo(a: Ann, env: Env, fuel: nat)
    requires InGrammar(a) && a.Subscript? && |a.args| == 2 && PlainEnv(env) && fuel > 0
    requires InGrammar(a.args[0]) && Translate(Print(a.args[0]), env, fuel - 1) == Some(Direct(a.args[0], env))
    requires InGrammar(a.args[1]) && Translate(Print(a.args[1]), env, fuel - 1) == Some(Direct(a.args[1], env))
    ensures Translate(Print(a), env, fuel) == Some(Direct(a, env))
  {
    TwoArguments(a, env, fuel);
  }

  /** Arguments of a generic are annotations of the grammar, lower than it, and carry its misread unions. */
  lemma Arguments(a: Ann)
    requires InGrammar(a) && a.Subscript?
    ensures |a.args| == 1 || |a.args| == 2
    ensures InGrammar(a.args[0]) && Height(a.args[0]) < Height(a)
    ensures |a.args| == 2 ==> InGrammar(a.args[1]) && Height(a.args[1]) < Height(a)
    ensures HasMisread(a) <==> HasMisread(a.args[0]) || (|a.args| == 2 && HasMisread(a.args[1]))
  {
    HeightOfArg(a.args, 0);
    if |a.args| == 2 { HeightOfArg(a.args, 1); }
  }

  lemma ArgumentAt(a: Ann, i: nat)
    requires InGrammar(a) && a.Subscript? && !HasMisread(a) && i < |a.args|
    ensures InGrammar(a.args[i]) && !HasMisread(a.args[i]) && Height(a.args[i]) < Height(a)
  {
    Arguments(a);
  }

  /** Without a misread union the translator computes the compositional translation. */
  lemma {:induction false} Exact(a: Ann, env: Env, fuel: nat)
    requires InGrammar(a) && PlainEnv(env) && !HasMisread(a) && fuel >= Height(a)
    ensures Translate(Print(a), env, fuel) == Some(Direct(a, env))
    decreases a, 0
  {
    if a.BitOr? {
      UnionExact(a, env, fuel);
    } else if a.Subscript? {
      SubscriptExact(a, env, fuel);
    } else {
      ExactLeaf(a, env, fuel);
    }
  }

  lemma {:induction false} UnionExact(a: Ann, env: Env, fuel: nat)
    requires InGrammar(a) && a.BitOr? && PlainEnv(env) && !HasMisread(a) && fuel >= Height(a)
    ensures Translate(Print(a), env, fuel) == Some(Direct(a, env))
    decreases a, 0, 2
  {
    UnionMembersExact(a, "", "", env, fuel - 1);
    assert "" + Print(a) + "" == Print(a);
    ExactUnion(a, env, fuel);
  }

  lemma {:induction false} SubscriptExact(a: Ann, env: Env, fuel: nat)
    requires InGrammar(a) && a.Subscript? && PlainEnv(env) && !HasMisread(a) && fuel >= Height(a)
    ensures Translate(Print(a), env, fuel) == Some(Direct(a, env))
    decreases a, 0, 2
  {
    ArgumentsExact(a, env, fuel);
    ExactSubscript(a, env, fuel);
  }

  /** The arguments of the generic translate exactly. */
  ghost predicate ArgumentsDone(a: Ann, env: Env, fuel: nat)
    requires a.Subscript?
  {
    forall i :: 0 <= i < |a.args| ==> Done(a.args[i], env, fuel)
  }

  ghost predicate Done(a: Ann, env: Env, fuel: nat) {
    InGrammar(a) && Translate(Print(a), env, fuel) == Some(Direct(a, env))
  }

  lemma {:induction false} ArgumentsExact(a: Ann, env: Env, fuel: nat)
    requires InGrammar(a) && a.Subscript? && PlainEnv(env) && !HasMisread(a) && fuel >= Height(a)
    ensures fuel > 0 && ArgumentsDone(a, env, fuel - 1)
    decreases a, 0, 1
  {
    assert Height(a) > 0;
    forall i | 0 <= i < |a.args| ensures Done(a.args[i], env, fuel - 1) {
      ArgumentAt(a, i);
      ArgumentExact(a, a.args[i], env, fuel - 1);
    }
  }

  lemma {:induction false} ArgumentExact(a: Ann, x: Ann, env: Env, fuel: nat)
    requires x < a && InGrammar(x) && PlainEnv(env) && !HasMisread(x) && fuel >= Height(x)
    ensures Done(x, env, fuel)
    decreases a, 0, 0
  {
    Exact(x, env, fuel);
  }

  lemma ExactSubscript(a: Ann, env: Env, fuel: nat)
    requires InGrammar(a) && a.Subscript? && PlainEnv(env) && fuel > 0 && ArgumentsDone(a, env, fuel - 1)
    ensures Translate(Print(a), env, fuel) == Some(Direct(a, env))
  {
    Arguments(a);
    if |a.args| == 1 { ExactOne(a, env, fuel); } else { ExactTwo(a, env, fuel); }
  }

  lemma {:induction false} UnionMembersExact(a: Ann, pre: string, post: string, env: Env, fuel: nat)
    requires a.BitOr? && InGrammar(a) && PlainEnv(env) && Pad(pre) && Pad(post)
    requires !MemberMisread(a.left) && !MemberMisread(a.right) && fuel >= Height(a.left) && fuel >= Height(a.right)
    ensures TranslateAll(Split(pre + Print(a) + post, '|'), env, fuel) == Some(DirectMembers(a, env))
    decreases a, 0, 0
  {
    SplitUnion(a, pre, post);
    MembersExact(a.left, pre, " ", env, fuel);
    MembersExact(a.right, " ", post, env, fuel);
    AllAppend(Split(pre + Print(a.left) + " ", '|'), Split(" " + Print(a.right) + post, '|'), env, fuel);
  }

  lemma {:induction false} MembersExact(a: Ann, pre: string, post: string, env: Env, fuel: nat)
    requires InGrammar(a) && PlainEnv(env) && Pad(pre) && Pad(post)
    requires !MemberMisread(a) && fuel >= Height(a)
    ensures TranslateAll(Split(pre + Print(a) + post, '|'), env, fuel) == Some(DirectMembers(a, env))
    decreases a, 1
  {
    if a.BitOr? {
      UnionMembersExact(a, pre, post, env, fuel);
    } else {
      PrintShape(a);
      Exact(a, env, fuel);
      MemberStep(pre, Print(a), post, env, fuel);
    }
  }

  // ----- a misread union loses structure -----

  lemma {:induction false} TotalAppend(p: seq<string>, q: seq<string>)
    ensures TotalWeight(p + q) == TotalWeight(p) + TotalWeight(q)
    decreases |p|
  {
    if p == [] {
      assert p + q == q;
    } else {
      TotalAppend(p[1..], q);
      assert (p + q)[1..] == p[1..] + q;
    }
  }

  lemma {:induction false} GlueWeight(p: seq<string>)
    requires p != []
    ensures Weight(Glue(p, " | ")) == TotalWeight(p) + |p| - 1
    decreases |p|
  {
    if |p| == 1 {
      assert p[1..] == [];
    } else {
      GlueWeight(p[1..]);
      SeparatorShape();
      WeightAppend(p[0], " | ");
      WeightAppend(p[0] + " | ", Glue(p[1..], " | "));
    }
  }

  lemma NullWeight()
    ensures Weight(" | null") == 1
  {
    SeparatorShape();
    PlainShape("null");
    WeightAppend(" | ", "null");
    assert " | null" == " | " + "null";
  }

  lemma AngleWeight(h: string)
    requires Plain(h)
    ensures Weight(h + "<") == 1 && Weight(">") == 0
  {
    PlainShape(h);
    PlainShape(">");
    WeightAppend(h, "<");
  }

  lemma WrapWeight(generic: Ann, x: string)
    ensures Weight(Wrap(generic, x)) == Weight(x) + 1
  {
    NullWeight();
    AngleWeight("Array");
    assert "Array" + "<" == "Array<";
    WeightAppend(x, " | null");
    WeightAppend("Array<", x);
    WeightAppend("Array<" + x, ">");
  }

  lemma RecordWeight(x: string, y: string)
    ensures Weight("Record<" + x + ", " + y + ">") == Weight(x) + Weight(y) + 1
  {
    AngleWeight("Record");
    SeparatorShape();
    assert "Record" + "<" == "Record<";
    WeightAppend("Record<", x);
    WeightAppend("Record<" + x, ", ");
    WeightAppend("Record<" + x + ", ", y);
    WeightAppend("Record<" + x + ", " + y, ">");
  }

  lemma {:induction false} NoWeight(s: string)
    requires forall i :: 0 <= i < |s| ==> CharWeight(s[i]) == 0
    ensures Weight(s) == 0
  {
    if s != "" {
      assert forall i :: 0 <= i < |s[1..]| ==> s[1..][i] == s[i + 1];
      NoWeight(s[1..]);
    }
  }

  lemma FallbackWeight()
    ensures Weight("Record<" + "string" + ", " + "unknown" + ">") == 1
  {
    NoWeight("string");
    NoWeight("unknown");
    RecordWeight("string", "unknown");
  }

  /** The text is neither a built-in nor a class name. */
  predicate Structured(t: string, env: Env) {
    MapType(t).None? && t !in env.known
  }

  lemma BoundedToken(s: string, env: Env, fuel: nat)
    requires PlainEnv(env) && fuel > 0 && !Structured(Strip(s), env)
    ensures Translate(s, env, fuel).Some? && Weight(Translate(s, env, fuel).value) == 0
  {
    TokenWeight(Strip(s), env);
  }

  lemma OptionalText(s: string, env: Env, fuel: nat)
    requires fuel > 0 && Structured(Strip(s), env) && Bracketed(Strip(s), "Optional[")
    ensures var i := Translate(Inner(Strip(s), "Optional["), env, fuel - 1);
            Translate(s, env, fuel) == if i.None? then None else Some(Wrap(Name("Optional"), i.value))
  {
  }

  lemma DictText(s: string, env: Env, fuel: nat)
    requires fuel > 0 && Structured(Strip(s), env) && Bracketed(Strip(s), "dict[")
    ensures Translate(s, env, fuel) == TranslateDict(Split(Inner(Strip(s), "dict["), ','), env, fuel - 1)
  {
    HeadsDiffer(Strip(s));
  }

  lemma ListText(s: string, env: Env, fuel: nat)
    requires fuel > 0 && Structured(Strip(s), env) && Bracketed(Strip(s), "list[")
    ensures var i := Translate(Inner(Strip(s), "list["), env, fuel - 1);
            Translate(s, env, fuel) == if i.None? then None else Some(Wrap(Name("list"), i.value))
  {
    HeadsDiffer(Strip(s));
  }

  lemma BareText(s: string, env: Env, fuel: nat)
    requires fuel > 0 && Structured(Strip(s), env) && !Generic(Strip(s))
    ensures var r := TranslateAll(Split(Strip(s), '|'), env, fuel - 1);
            Translate(s, env, fuel) == if '|' !in Strip(s) then Some(Strip(s))
                                       else if r.None? then None else Some(Glue(r.value, " | "))
  {
  }

  /** The text is taken for a generic. */
  predicate Generic(t: string) {
    Bracketed(t, "Optional[") || Bracketed(t, "dict[") || Bracketed(t, "list[")
  }

  lemma HeadsDiffer(t: string)
    ensures Bracketed(t, "Optional[") ==> t[0] == 'O'
    ensures Bracketed(t, "dict[") ==> t[0] == 'd'
    ensures Bracketed(t, "list[") ==> t[0] == 'l'
  {
    if Bracketed(t, "Optional[") { assert t[..9][0] == 'O'; }
    if Bracketed(t, "dict[") { assert t[..5][0] == 'd'; }
    if Bracketed(t, "list[") { assert t[..5][0] == 'l'; }
  }

  /** What comes out weighs no more than what went in. */
  ghost predicate AtMost(s: string, env: Env, fuel: nat) {
    var r := Translate(s, env, fuel); r.Some? ==> Weight(r.value) <= Weight(s)
  }

  ghost predicate Less(s: string, env: Env, fuel: nat) {
    var r := Translate(s, env, fuel); r.Some? ==> Weight(r.value) < Weight(s)
  }

  lemma OptionalBound(s: string, env: Env, fuel: nat)
    requires fuel > 0 && Structured(Strip(s), env) && Bracketed(Strip(s), "Optional[")
    ensures AtMost(Inner(Strip(s), "Optional["), env, fuel - 1) ==> AtMost(s, env, fuel)
    ensures Less(Inner(Strip(s), "Optional["), env, fuel - 1) ==> Less(s, env, fuel)
  {
    StripKeeps(s);
    OptionalText(s, env, fuel);
    WrapBound(Strip(s), "Optional[", Name("Optional"), Translate(Inner(Strip(s), "Optional["), env, fuel - 1));
  }

  lemma ListBound(s: string, env: Env, fuel: nat)
    requires fuel > 0 && Structured(Strip(s), env) && Bracketed(Strip(s), "list[")
    ensures AtMost(Inner(Strip(s), "list["), env, fuel - 1) ==> AtMost(s, env, fuel)
    ensures Less(Inner(Strip(s), "list["), env, fuel - 1) ==> Less(s, env, fuel)
  {
    StripKeeps(s);
    ListText(s, env, fuel);
    WrapBound(Strip(s), "list[", Name("list"), Translate(Inner(Strip(s), "list["), env, fuel - 1));
  }

  lemma RecordBound(t: string, k: string, v: string)
    requires Bracketed(t, "dict[") && |Split(Inner(t, "dict["), ',')| == 2
    ensures var parts := Split(Inner(t, "dict["), ',');
      Weight("Record<" + k + ", " + v + ">") + Weight(parts[0]) + Weight(parts[1]) <= Weight(k) + Weight(v) + Weight(t)
  {
    InnerWeight(t, "dict[");
    CutWeight(0, "", Inner(t, "dict["), ',');
    PairWeight(Split(Inner(t, "dict["), ','));
    RecordWeight(k, v);
  }

  lemma DictPairBound(s: string, env: Env, fuel: nat)
    requires fuel > 0 && Structured(Strip(s), env) && Bracketed(Strip(s), "dict[")
    requires |Split(Inner(Strip(s), "dict["), ',')| == 2
    ensures var parts := Split(Inner(Strip(s), "dict["), ',');
      && (AtMost(parts[0], env, fuel - 1) && AtMost(parts[1], env, fuel - 1) ==> AtMost(s, env, fuel))
      && (Less(parts[0], env, fuel - 1) && AtMost(parts[1], env, fuel - 1) ==> Less(s, env, fuel))
      && (AtMost(parts[0], env, fuel - 1) && Less(parts[1], env, fuel - 1) ==> Less(s, env, fuel))
  {
    var parts := Split(Inner(Strip(s), "dict["), ',');
    StripKeeps(s);
    DictText(s, env, fuel);
    var k, v := Translate(parts[0], env, fuel - 1), Translate(parts[1], env, fuel - 1);
    if k.Some? && v.Some? { RecordBound(Strip(s), k.value, v.value); }
  }

  lemma DictFallbackBound(s: string, env: Env, fuel: nat)
    requires fuel > 0 && Structured(Strip(s), env) && Bracketed(Strip(s), "dict[")
    requires |Split(Inner(Strip(s), "dict["), ',')| != 2
    ensures AtMost(s, env, fuel) && (Weight(s) >= 2 ==> Less(s, env, fuel))
  {
    StripKeeps(s);
    DictText(s, env, fuel);
    InnerWeight(Strip(s), "dict[");
    FallbackWeight();
  }

  ghost predicate AllAtMost(parts: seq<string>, env: Env, fuel: nat) {
    var r := TranslateAll(parts, env, fuel);
    r.Some? ==> |r.value| == |parts| && TotalWeight(r.value) <= TotalWeight(parts)
  }

  ghost predicate AllLess(parts: seq<string>, env: Env, fuel: nat) {
    var r := TranslateAll(parts, env, fuel);
    r.Some? ==> |r.value| == |parts| && TotalWeight(r.value) < TotalWeight(parts)
  }

  lemma UnionBound(t: string, ts: seq<string>)
    requires '|' in t && |ts| == |Split(t, '|')|
    ensures ts != [] && Weight(Glue(ts, " | ")) + TotalWeight(Split(t, '|')) <= TotalWeight(ts) + Weight(t)
  {
    var parts := Split(t, '|');
    CutNonempty(0, "", t, '|');
    CutWeight(0, "", t, '|');
    assert (|parts| - 1) * CharWeight('|') == |parts| - 1;
    GlueWeight(ts);
  }

  lemma BareBound(s: string, env: Env, fuel: nat)
    requires fuel > 0 && Structured(Strip(s), env) && !Generic(Strip(s))
    ensures AllAtMost(Split(Strip(s), '|'), env, fuel - 1) ==> AtMost(s, env, fuel)
    ensures AllLess(Split(Strip(s), '|'), env, fuel - 1) && '|' in Strip(s) ==> Less(s, env, fuel)
  {
    StripKeeps(s);
    BareText(s, env, fuel);
    var parts := Split(Strip(s), '|');
    var r := TranslateAll(parts, env, fuel - 1);
    if '|' in Strip(s) && r.Some? && |r.value| == |parts| { UnionBound(Strip(s), r.value); }
  }

  lemma TokenBound(s: string, env: Env, fuel: nat)
    requires PlainEnv(env) && (fuel == 0 || !Structured(Strip(s), env))
    ensures AtMost(s, env, fuel)
  {
    if fuel > 0 { BoundedToken(s, env, fuel); }
  }

  lemma AllCons(parts: seq<string>, env: Env, fuel: nat)
    requires parts != []
    ensures AtMost(parts[0], env, fuel) && AllAtMost(parts[1..], env, fuel) ==> AllAtMost(parts, env, fuel)
    ensures Less(parts[0], env, fuel) && AllAtMost(parts[1..], env, fuel) ==> AllLess(parts, env, fuel)
    ensures AtMost(parts[0], env, fuel) && AllLess(parts[1..], env, fuel) ==> AllLess(parts, env, fuel)
  {
    var f, r := Translate(parts[0], env, fuel), TranslateAll(parts[1..], env, fuel);
    if f.Some? && r.Some? { assert ([f.value] + r.value)[1..] == r.value; }
  }

  /** The translator never adds structure: its output weighs no more than its input. */
  lemma {:induction false} Bounded(s: string, env: Env, fuel: nat)
    requires PlainEnv(env)
    ensures AtMost(s, env, fuel)
    decreases fuel, 0
  {
    var t := Strip(s);
    if fuel == 0 || !Structured(t, env) {
      TokenBound(s, env, fuel);
    } else if Bracketed(t, "Optional[") {
      Bounded(Inner(t, "Optional["), env, fuel - 1);
      OptionalBound(s, env, fuel);
    } else if Bracketed(t, "dict[") {
      var parts := Split(Inner(t, "dict["), ',');
      if |parts| == 2 {
        BoundedAll(parts, env, fuel - 1);
        DictPairBound(s, env, fuel);
      } else {
        DictFallbackBound(s, env, fuel);
      }
    } else if Bracketed(t, "list[") {
      Bounded(Inner(t, "list["), env, fuel - 1);
      ListBound(s, env, fuel);
    } else {
      BoundedAll(Split(t, '|'), env, fuel - 1);
      BareBound(s, env, fuel);
    }
  }

  lemma {:induction false} BoundedAll(parts: seq<string>, env: Env, fuel: nat)
    requires PlainEnv(env)
    ensures AllAtMost(parts, env, fuel)
    ensures forall k :: 0 <= k < |parts| ==> AtMost(parts[k], env, fuel)
    decreases fuel, 1, |parts|
  {
    if parts != [] {
      Bounded(parts[0], env, fuel);
      BoundedAll(parts[1..], env, fuel);
      AllCons(parts, env, fuel);
      forall k | 0 < k < |parts| ensures AtMost(parts[k], env, fuel) {
        assert parts[1..][k - 1] == parts[k];
      }
    }
  }

  /** One part that loses weight makes the whole list lose weight. */
  lemma {:induction false} AllLessAt(parts: seq<string>, k: nat, env: Env, fuel: nat)
    requires PlainEnv(env) && k < |parts| && Less(parts[k], env, fuel)
    ensures AllLess(parts, env, fuel)
    decreases k
  {
    AllCons(parts, env, fuel);
    if k == 0 {
      BoundedAll(parts[1..], env, fuel);
    } else {
      assert parts[1..][k - 1] == parts[k];
      Bounded(parts[0], env, fuel);
      AllLessAt(parts[1..], k - 1, env, fuel);
    }
  }

  lemma WrapBound(t: string, head: string, generic: Ann, r: Option<string>)
    requires Bracketed(t, head) && head != "" && head[|head| - 1] == '['
    ensures r.Some? && Weight(r.value) <= Weight(Inner(t, head)) ==> Weight(Wrap(generic, r.value)) <= Weight(t)
    ensures r.Some? && Weight(r.value) < Weight(Inner(t, head)) ==> Weight(Wrap(generic, r.value)) < Weight(t)
  {
    InnerWeight(t, head);
    if r.Some? { WrapWeight(generic, r.value); }
  }

  lemma TokenWeight(t: string, env: Env)
    requires PlainEnv(env)
    ensures MapType(t).Some? ==> Weight(MapType(t).value) == 0
    ensures t in env.known ==> Weight(t) == 0 && Weight(t + "Value") == 0
  {
    if MapType(t).Some? { NoWeight(MapType(t).value); }
    if t in env.known {
      NoWeight(t);
      NoWeight("Value");
      WeightAppend(t, "Value");
    }
  }

  lemma InnerWeight(t: string, head: string)
    requires Bracketed(t, head) && head != "" && head[|head| - 1] == '['
    ensures Weight(Inner(t, head)) + 1 <= Weight(t)
  {
    var n := |head|;
    assert t == t[..n] + Inner(t, head) + [t[|t| - 1]];
    WeightAppend(t[..n], Inner(t, head));
    WeightAppend(t[..n] + Inner(t, head), [t[|t| - 1]]);
    assert head == head[..n - 1] + "[";
    WeightAppend(head[..n - 1], "[");
  }

  lemma PairWeight(parts: seq<string>)
    requires |parts| == 2
    ensures TotalWeight(parts) == Weight(parts[0]) + Weight(parts[1])
  {
    var tail := parts[1..];
    assert tail[0] == parts[1] && tail[1..] == [];
    assert TotalWeight(tail[1..]) == 0;
    assert TotalWeight(tail) == Weight(tail[0]) + TotalWeight(tail[1..]);
  }

  // ----- crossed text -----

  lemma {:induction false} BarInText(d: int, s: string)
    requires BarBelow(d, s)
    ensures exists i :: 0 <= i < |s| && s[i] == '|'
    ensures Weight(s) >= 1
    decreases |s|
  {
    if s[0] == '|' && d < 0 {
      assert s[0] == '|';
    } else {
      BarInText(d + Delta(s[0]), s[1..]);
      var i :| 0 <= i < |s[1..]| && s[1..][i] == '|';
      assert s[i + 1] == '|';
    }
  }

  /** Taking the brackets off crossed text leaves crossed text. */
  lemma InnerCrossed(t: string, head: string)
    requires Crossed(t) && Bracketed(t, head) && head != "" && head[|head| - 1] == '['
    requires forall i :: 0 <= i < |head| - 1 ==> PlainChar(head[i])
    ensures Crossed(Inner(t, head))
  {
    var n, x := |head|, Inner(t, head);
    assert t == head + (x + "]");
    HeadDepth(head);
    DepthAppend(head, x + "]");
    DepthAppend(x, "]");
    BarBelowAppend(0, head, x + "]");
    BarBelowAppend(1, x, "]");
    LowerBar(1, 0, x);
  }

  lemma HeadDepth(head: string)
    requires head != "" && head[|head| - 1] == '[' && forall i :: 0 <= i < |head| - 1 ==> PlainChar(head[i])
    ensures Depth(head) == 1 && !BarBelow(0, head)
  {
    var h := head[..|head| - 1];
    PlainShape(h);
    assert head == h + "[";
    DepthAppend(h, "[");
    BarBelowAppend(0, h, "[");
    PlainNoBar(0, h);
  }

  lemma {:induction false} PlainNoBar(d: int, s: string)
    requires forall i :: 0 <= i < |s| ==> PlainChar(s[i])
    ensures !BarBelow(d, s)
    decreases |s|
  {
    if s != "" {
      assert forall i :: 0 <= i < |s[1..]| ==> s[1..][i] == s[i + 1];
      PlainNoBar(d + Delta(s[0]), s[1..]);
    }
  }

  lemma {:induction false} LowerBar(d: int, e: int, s: string)
    requires BarBelow(d, s) && e <= d
    ensures BarBelow(e, s)
    decreases |s|
  {
    if !(s[0] == '|' && d < 0) { LowerBar(d + Delta(s[0]), e + Delta(s[0]), s[1..]); }
  }

  lemma CrossedSplits(x: string, sep: char) returns (k: nat)
    requires Crossed(x) && (sep == ',' || sep == '|')
    ensures k < |Split(x, sep)| && Crossed(Split(x, sep)[k])
  {
    k := CutCrossed(0, "", x, sep);
  }

  lemma CrossedIsStructured(s: string, env: Env)
    requires PlainEnv(env) && Crossed(s)
    ensures Crossed(Strip(s)) && Structured(Strip(s), env) && '|' in Strip(s) && Weight(Strip(s)) == Weight(s)
  {
    StripKeeps(s);
    BarInText(0, Strip(s));
    var i :| 0 <= i < |Strip(s)| && Strip(s)[i] == '|';
    NotAToken(Strip(s), env, i);
  }

  /** Crossed text never comes out whole: either the recursion does not end or weight is lost. */
  lemma {:induction false} CrossedLoses(s: string, env: Env, fuel: nat)
    requires PlainEnv(env) && Crossed(s)
    ensures Less(s, env, fuel)
    decreases fuel
  {
    if fuel == 0 { return; }
    var t := Strip(s);
    CrossedIsStructured(s, env);
    if Bracketed(t, "Optional[") {
      InnerCrossed(t, "Optional[");
      CrossedLoses(Inner(t, "Optional["), env, fuel - 1);
      OptionalBound(s, env, fuel);
    } else if Bracketed(t, "dict[") {
      InnerCrossed(t, "dict[");
      CrossedDict(s, env, fuel);
    } else if Bracketed(t, "list[") {
      InnerCrossed(t, "list[");
      CrossedLoses(Inner(t, "list["), env, fuel - 1);
      ListBound(s, env, fuel);
    } else {
      var k := CrossedSplits(t, '|');
      CrossedLoses(Split(t, '|')[k], env, fuel - 1);
      AllLessAt(Split(t, '|'), k, env, fuel - 1);
      BareBound(s, env, fuel);
    }
  }

  lemma {:induction false} CrossedDict(s: string, env: Env, fuel: nat)
    requires PlainEnv(env) && fuel > 0 && Structured(Strip(s), env)
    requires Bracketed(Strip(s), "dict[") && Crossed(Inner(Strip(s), "dict[")) && Weight(Strip(s)) == Weight(s)
    ensures Less(s, env, fuel)
    decreases fuel, 0
  {
    var x := Inner(Strip(s), "dict[");
    var parts := Split(x, ',');
    if |parts| == 2 {
      var k := CrossedSplits(x, ',');
      CrossedLoses(parts[k], env, fuel - 1);
      Bounded(parts[1 - k], env, fuel - 1);
      DictPairBound(s, env, fuel);
    } else {
      InnerWeight(Strip(s), "dict[");
      BarInText(0, x);
      DictFallbackBound(s, env, fuel);
    }
  }

  // ----- what happens to annotations with a misread union -----

  lemma MisreadInnerText(g: string, x: string, rest: string)
    requires rest != "" && rest[|rest| - 1] == ']'
    ensures var t := g + "[" + x + "]" + " " + rest;
            Bracketed(t, g + "[") && Inner(t, g + "[") == x + ("] " + rest[..|rest| - 1])
  {
    var t, head, m := g + "[" + x + "]" + " " + rest, g + "[", |rest| - 1;
    assert rest == rest[..m] + "]";
    assert t[..|head|] == head;
    assert t[|head|..|t| - 1] == x + ("] " + rest[..m]);
  }

  lemma ClosingBar(x: string, m: string)
    requires Depth(x) == 0 && m != "" && m[0] == '|'
    ensures BarBelow(0, x + ("] " + m))
  {
    var tail := "] " + m;
    BarBelowAppend(0, x, tail);
    assert tail[1..] == " " + m && (" " + m)[1..] == m;
    assert BarBelow(-1, m);
    assert BarBelow(-1, " " + m);
  }

  lemma InnerDepth(t: string, g: string)
    requires Plain(g) && Bracketed(t, g + "[")
    ensures Depth(Inner(t, g + "[")) == Depth(t)
  {
    var head := g + "[";
    var x := Inner(t, head);
    assert t == head + (x + "]");
    HeadDepth(head);
    DepthAppend(head, x + "]");
    DepthAppend(x, "]");
  }

  /** The text of a misread union is taken for one generic, and what is left
      between its outer brackets is crossed. */
  lemma MisreadText(g: string, x: string, rest: string)
    requires Plain(g) && Depth(x) == 0 && rest != "" && rest[0] == '|' && rest[|rest| - 1] == ']'
    requires Depth(g + "[" + x + "]" + " " + rest) == 0
    ensures var t := g + "[" + x + "]" + " " + rest;
            Bracketed(t, g + "[") && Crossed(Inner(t, g + "["))
  {
    MisreadInnerText(g, x, rest);
    InnerDepth(g + "[" + x + "]" + " " + rest, g);
    ClosingBar(x, rest[..|rest| - 1]);
  }

  lemma FirstForm(a: Ann) returns (g: string, x: string)
    requires InGrammar(a) && a.Subscript?
    ensures (g == "Optional" || g == "list" || g == "dict") && Plain(g)
    ensures Print(a) == g + "[" + x + "]" && Depth(x) == 0
  {
    PrintForms(a);
    g := a.generic.id;
    if |a.args| == 1 {
      x := Print(a.args[0]);
      PrintShape(a.args[0]);
    } else {
      x := Print(a.args[0]) + ", " + Print(a.args[1]);
      PrintShape(a.args[0]);
      PrintShape(a.args[1]);
      JoinShape(Print(a.args[0]), Print(a.args[1]), ", ");
    }
  }

  lemma MisreadInner(a: Ann) returns (g: string)
    requires InGrammar(a) && Misread(a)
    ensures g == "Optional" || g == "list" || g == "dict"
    ensures Bracketed(Print(a), g + "[") && Crossed(Inner(Print(a), g + "["))
  {
    FirstInGrammar(a);
    var rest := FirstText(a);
    var x;
    g, x := FirstForm(First(a));
    PrintShape(a);
    assert Print(a)[|Print(a)| - 1] == rest[|rest| - 1];
    MisreadText(g, x, rest);
  }

  lemma UnionStructured(a: Ann, env: Env)
    requires InGrammar(a) && a.BitOr? && PlainEnv(env)
    ensures Strip(Print(a)) == Print(a) && Structured(Print(a), env)
  {
    PrintShape(a);
    StripPadded(Print(a));
    assert Print(a)[|Print(a.left)| + 1] == '|';
    NotAToken(Print(a), env, |Print(a.left)| + 1);
  }

  lemma MisreadLoses(a: Ann, env: Env, fuel: nat)
    requires InGrammar(a) && Misread(a) && PlainEnv(env)
    ensures Less(Print(a), env, fuel)
  {
    if fuel > 0 {
      UnionStructured(a, env);
      var g := MisreadInner(a);
      CrossedInside(Print(a), g, env, fuel);
    }
  }

  /** Crossed text inside the brackets of a generic. */
  lemma CrossedInside(t: string, g: string, env: Env, fuel: nat)
    requires PlainEnv(env) && fuel > 0 && Strip(t) == t && Structured(t, env)
    requires g == "Optional" || g == "list" || g == "dict"
    requires Bracketed(t, g + "[") && Crossed(Inner(t, g + "["))
    ensures Less(t, env, fuel)
  {
    if g == "Optional" {
      assert g + "[" == "Optional[";
      CrossedLoses(Inner(t, "Optional["), env, fuel - 1);
      OptionalBound(t, env, fuel);
    } else if g == "dict" {
      assert g + "[" == "dict[";
      CrossedDict(t, env, fuel);
    } else {
      assert g + "[" == "list[";
      CrossedLoses(Inner(t, "list["), env, fuel - 1);
      ListBound(t, env, fuel);
    }
  }

  /** The compositional translation keeps exactly the structure of the printed text. */
  lemma {:induction false} DirectWeight(a: Ann, env: Env)
    requires InGrammar(a) && PlainEnv(env)
    ensures Weight(Direct(a, env)) == Weight(Print(a))
  {
    if a.BitOr? {
      DirectWeight(a.left, env);
      DirectWeight(a.right, env);
      UnionDirectWeight(a, env);
    } else if a.Subscript? {
      Arguments(a);
      DirectWeight(a.args[0], env);
      if |a.args| == 2 { DirectWeight(a.args[1], env); }
      SubscriptWeight(a, env);
    } else {
      LeafWeight(a, env);
    }
  }

  lemma LeafWeight(a: Ann, env: Env)
    requires InGrammar(a) && !a.BitOr? && !a.Subscript? && PlainEnv(env)
    ensures Weight(Direct(a, env)) == Weight(Print(a))
  {
    LeafPlain(a);
    PlainShape(Print(a));
    TokenWeight(Print(a), env);
    LeafIs(a, env);
  }

  lemma UnionDirectWeight(a: Ann, env: Env)
    requires InGrammar(a) && a.BitOr? && InGrammar(a.left) && InGrammar(a.right)
    requires Weight(Direct(a.left, env)) == Weight(Print(a.left))
    requires Weight(Direct(a.right, env)) == Weight(Print(a.right))
    ensures Weight(Direct(a, env)) == Weight(Print(a))
  {
    UnionWeight(Print(a.left), Print(a.right));
    UnionWeight(Direct(a.left, env), Direct(a.right, env));
  }

  lemma UnionWeight(x: string, y: string)
    ensures Weight(x + " | " + y) == Weight(x) + 1 + Weight(y)
  {
    SeparatorShape();
    WeightAppend(x, " | ");
    WeightAppend(x + " | ", y);
  }

  lemma SubscriptWeight(a: Ann, env: Env)
    requires InGrammar(a) && a.Subscript? && PlainEnv(env)
    requires |a.args| >= 1 && InGrammar(a.args[0]) && Weight(Direct(a.args[0], env)) == Weight(Print(a.args[0]))
    requires |a.args| == 2 ==> InGrammar(a.args[1]) && Weight(Direct(a.args[1], env)) == Weight(Print(a.args[1]))
    ensures Weight(Direct(a, env)) == Weight(Print(a))
  {
    PrintForms(a);
    PrintShape(a.args[0]);
    if |a.args| == 1 {
      OneArgument(a, env, 1);
      BracketShape(a.generic.id, Print(a.args[0]));
      WrapWeight(a.generic, Direct(a.args[0], env));
    } else {
      TwoArguments(a, env, 1);
      PrintShape(a.args[1]);
      JoinShape(Print(a.args[0]), Print(a.args[1]), ", ");
      SeparatorShape();
      BracketShape("dict", Print(a.args[0]) + ", " + Print(a.args[1]));
      RecordWeight(Direct(a.args[0], env), Direct(a.args[1], env));
    }
  }

  lemma OneLess(a: Ann, env: Env, fuel: nat)
    requires InGrammar(a) && a.Subscript? && |a.args| == 1 && PlainEnv(env) && fuel > 0
    requires Less(Print(a.args[0]), env, fuel - 1)
    ensures Less(Print(a), env, fuel)
  {
    OneArgument(a, env, fuel);
    PrintForms(a);
    PrintShape(a.args[0]);
    BracketShape(a.generic.id, Print(a.args[0]));
    var x := Translate(Print(a.args[0]), env, fuel - 1);
    if x.Some? { WrapWeight(a.generic, x.value); }
  }

  /** Weights of a pair: if neither part gains and one loses, so does the whole. */
  lemma LighterPair(w: nat, x: Option<string>, wx: nat, y: Option<string>, wy: nat, k: nat)
    requires w == 1 + wx + wy && k < 2
    requires (x.Some? ==> Weight(x.value) <= wx) && (y.Some? ==> Weight(y.value) <= wy)
    requires if k == 0 then x.Some? ==> Weight(x.value) < wx else y.Some? ==> Weight(y.value) < wy
    ensures x.Some? && y.Some? ==> Weight("Record<" + x.value + ", " + y.value + ">") < w
  {
    if x.Some? && y.Some? { RecordWeight(x.value, y.value); }
  }

  lemma DictWeight(a: Ann)
    requires InGrammar(a) && a.Subscript? && |a.args| == 2
    ensures Weight(Print(a)) == 1 + Weight(Print(a.args[0])) + Weight(Print(a.args[1]))
  {
    PrintForms(a);
    PrintShape(a.args[0]);
    PrintShape(a.args[1]);
    JoinShape(Print(a.args[0]), Print(a.args[1]), ", ");
    SeparatorShape();
    BracketShape("dict", Print(a.args[0]) + ", " + Print(a.args[1]));
  }

  lemma TwoLess(a: Ann, k: nat, env: Env, fuel: nat)
    requires InGrammar(a) && a.Subscript? && |a.args| == 2 && PlainEnv(env) && fuel > 0
    requires k < 2 && Less(Print(a.args[k]), env, fuel - 1)
    ensures Less(Print(a), env, fuel)
  {
    TwoArguments(a, env, fuel);
    DictWeight(a);
    PairTextLess(Print(a), Print(a.args[0]), Print(a.args[1]), k, env, fuel);
  }

  /** A text that translates to a record of two others. */
  lemma PairTextLess(t: string, p: string, q: string, k: nat, env: Env, fuel: nat)
    requires fuel > 0 && PlainEnv(env) && k < 2 && Less(if k == 0 then p else q, env, fuel - 1)
    requires Weight(t) == 1 + Weight(p) + Weight(q)
    requires var x, y := Translate(p, env, fuel - 1), Translate(q, env, fuel - 1);
             Translate(t, env, fuel)
               == if x.None? || y.None? then None else Some("Record<" + x.value + ", " + y.value + ">")
    ensures Less(t, env, fuel)
  {
    Bounded(p, env, fuel - 1);
    Bounded(q, env, fuel - 1);
    LighterPair(Weight(t), Translate(p, env, fuel - 1), Weight(p), Translate(q, env, fuel - 1), Weight(q), k);
  }

  lemma UnionLess(a: Ann, env: Env, fuel: nat)
    requires InGrammar(a) && a.BitOr? && !Misread(a) && PlainEnv(env) && fuel > 0
    requires AllLess(Split(Print(a), '|'), env, fuel - 1)
    ensures Less(Print(a), env, fuel)
  {
    UnionStructured(a, env);
    PrintForms(a);
    UnionNotBracketed(a, "Optional");
    UnionNotBracketed(a, "dict");
    UnionNotBracketed(a, "list");
    assert "Optional" + "[" == "Optional[" && "dict" + "[" == "dict[" && "list" + "[" == "list[";
    assert Print(a)[|Print(a.left)| + 1] == '|';
    BareBound(Print(a), env, fuel);
  }

  lemma AllLessAppend(p: seq<string>, q: seq<string>, env: Env, fuel: nat)
    requires AllAtMost(p, env, fuel) && AllAtMost(q, env, fuel)
    requires AllLess(p, env, fuel) || AllLess(q, env, fuel)
    ensures AllLess(p + q, env, fuel)
  {
    AllAppend(p, q, env, fuel);
    TotalAppend(p, q);
    var x, y := TranslateAll(p, env, fuel), TranslateAll(q, env, fuel);
    if x.Some? && y.Some? { TotalAppend(x.value, y.value); }
  }

  lemma MemberLess(pre: string, p: string, post: string, env: Env, fuel: nat)
    requires Pad(pre) && Pad(post) && Shaped(p) && NoCut(0, p, '|') && Less(p, env, fuel)
    ensures AllLess(Split(pre + p + post, '|'), env, fuel)
  {
    MemberStep(pre, p, post, env, fuel);
    PaddedSolid(pre, p, post);
    StripKeeps(pre + p + post);
    var s := pre + p + post;
    assert [s][1..] == [];
    assert TotalWeight([s]) == Weight(s) == Weight(p);
    var x := Translate(p, env, fuel);
    if x.Some? {
      assert [x.value][1..] == [];
      assert TotalWeight([x.value]) == Weight(x.value);
    }
  }

  /** An annotation with a misread union never gets its translation, however
      much recursion is allowed. */
  lemma {:induction false} MisreadNeverExact(a: Ann, env: Env, fuel: nat)
    requires InGrammar(a) && PlainEnv(env) && HasMisread(a)
    ensures Less(Print(a), env, fuel)
    decreases a, 0
  {
    if fuel == 0 { return; }
    if a.BitOr? { UnionNeverExact(a, env, fuel); } else { SubscriptNeverExact(a, env, fuel); }
  }

  lemma {:induction false} UnionNeverExact(a: Ann, env: Env, fuel: nat)
    requires InGrammar(a) && PlainEnv(env) && HasMisread(a) && a.BitOr? && fuel > 0
    ensures Less(Print(a), env, fuel)
    decreases a, 0, 1
  {
    if Misread(a) {
      MisreadLoses(a, env, fuel);
    } else {
      UnionMisread(a, "", "", env, fuel - 1);
      assert "" + Print(a) + "" == Print(a);
      UnionLess(a, env, fuel);
    }
  }

  lemma {:induction false} SubscriptNeverExact(a: Ann, env: Env, fuel: nat)
    requires InGrammar(a) && PlainEnv(env) && HasMisread(a) && a.Subscript? && fuel > 0
    ensures Less(Print(a), env, fuel)
    decreases a, 0, 1
  {
    Arguments(a);
    var k := ArgumentLess(a, env, fuel - 1);
    if |a.args| == 1 { OneLess(a, env, fuel); } else { TwoLess(a, k, env, fuel); }
  }

  lemma {:induction false} ArgumentLess(a: Ann, env: Env, fuel: nat) returns (k: nat)
    requires InGrammar(a) && PlainEnv(env) && a.Subscript? && HasMisread(a)
    ensures k < |a.args| <= 2 && Less(Print(a.args[k]), env, fuel)
    decreases a, 0, 0
  {
    Arguments(a);
    k := if HasMisread(a.args[0]) then 0 else 1;
    var x := a.args[k];
    MisreadNeverExact(x, env, fuel);
  }

  lemma {:induction false} UnionMisread(a: Ann, pre: string, post: string, env: Env, fuel: nat)
    requires a.BitOr? && InGrammar(a) && PlainEnv(env) && Pad(pre) && Pad(post)
    requires MemberMisread(a.left) || MemberMisread(a.right)
    ensures AllLess(Split(pre + Print(a) + post, '|'), env, fuel)
    decreases a, 0, 0
  {
    var p, q := Split(pre + Print(a.left) + " ", '|'), Split(" " + Print(a.right) + post, '|');
    SplitUnion(a, pre, post);
    BoundedAll(p, env, fuel);
    BoundedAll(q, env, fuel);
    if MemberMisread(a.left) {
      MembersMisread(a.left, pre, " ", env, fuel);
    } else {
      MembersMisread(a.right, " ", post, env, fuel);
    }
    AllLessAppend(p, q, env, fuel);
  }

  lemma {:induction false} MembersMisread(a: Ann, pre: string, post: string, env: Env, fuel: nat)
    requires InGrammar(a) && PlainEnv(env) && Pad(pre) && Pad(post) && MemberMisread(a)
    ensures AllLess(Split(pre + Print(a) + post, '|'), env, fuel)
    decreases a, 1
  {
    if a.BitOr? {
      UnionMisread(a, pre, post, env, fuel);
    } else {
      PrintShape(a);
      MisreadNeverExact(a, env, fuel);
      MemberLess(pre, Print(a), post, env, fuel);
    }
  }

  /** Main result: given enough recursion depth, printing and translating an
      annotation gives its compositional translation if and only if no union in
      it both starts and ends with a bracketed generic. */
  lemma TranslationExactly(a: Ann, env: Env, fuel: nat)
    requires InGrammar(a) && PlainEnv(env) && fuel >= Height(a)
    ensures Translate(Print(a), env, fuel) == Some(Direct(a, env)) <==> !HasMisread(a)
  {
    if HasMisread(a) {
      MisreadNeverExact(a, env, fuel);
      DirectWeight(a, env);
    } else {
      Exact(a, env, fuel);
    }
  }

  /** Text that is one part of itself is translated by translating itself: the
      recursion never ends, whatever depth is allowed. */
  lemma {:induction false} NeverEnds(t: string, env: Env, fuel: nat)
    requires Trimmed(t) && Structured(t, env) && !Generic(t) && '|' in t && Split(t, '|') == [t]
    ensures Translate(t, env, fuel).None?
    decreases fuel
  {
    if fuel > 0 {
      StripPadded(t);
      BareText(t, env, fuel);
      NeverEnds(t, env, fuel - 1);
      assert [t][0] == t;
    }
  }

  lemma ReopeningShape()
    ensures Depth(" list" + "[") == 1 && NoCut(-1, " list" + "[", '|')
  {
    PlainShape("list");
    PlainNoCut(-1, "list");
    assert (" list")[1..] == "list";
    DepthAppend(" list", "[");
    NoCutAppend(-1, " list", "[", '|');
  }

  lemma ClosingShape()
    ensures Depth("] |") == -1 && NoCut(0, "] |", '|')
  {
    var bar := "|";
    assert bar[1..] == "";
    assert Depth(bar) == 0 && NoCut(-1, bar, '|');
    var spaced := " |";
    assert spaced[1..] == bar;
    assert Depth(spaced) == 0 && NoCut(-1, spaced, '|');
    assert "] |"[1..] == spaced;
  }

  lemma MiddleShape()
    ensures Depth("] | list[") == 0 && NoCut(0, "] | list[", '|')
  {
    ReopeningShape();
    ClosingShape();
    var a, b := "] |", " list" + "[";
    DepthAppend(a, b);
    NoCutAppend(0, a, b, '|');
    assert "] | list[" == a + b;
  }

  lemma CrossedMiddle(x: string, y: string)
    requires Plain(x) && Plain(y)
    ensures var t := x + "] | list[" + y; Solid(t, '|') && Trimmed(t) && t[|t| - 1] == y[|y| - 1]
  {
    var m := "] | list[";
    PlainShape(x);
    PlainShape(y);
    MiddleShape();
    DepthAppend(x, m);
    DepthAppend(x + m, y);
    NoCutCat(x, m, '|');
    NoCutCat(x + m, y, '|');
  }

  lemma {:induction false} PlainNoCut(d: int, s: string)
    requires forall i :: 0 <= i < |s| ==> PlainChar(s[i])
    ensures NoCut(d, s, '|')
    decreases |s|
  {
    if s != "" {
      assert forall i :: 0 <= i < |s[1..]| ==> s[1..][i] == s[i + 1];
      PlainNoCut(d + Delta(s[0]), s[1..]);
    }
  }

  /** A union of two lists never translates: the recursion has no end. */
  lemma ListUnionNeverEnds(x: string, y: string, env: Env, fuel: nat)
    requires Plain(x) && Plain(y) && PlainEnv(env)
    ensures
      Translate(Print(BitOr(Subscript(Name("list"), [Name(x)]), Subscript(Name("list"), [Name(y)]))), env, fuel).None?
  {
    var l, r := Subscript(Name("list"), [Name(x)]), Subscript(Name("list"), [Name(y)]);
    PrintOne("list", Name(x));
    PrintOne("list", Name(y));
    var t, m := Print(BitOr(l, r)), x + "] | list[" + y;
    assert t == "list[" + m + "]";
    assert "list" + "[" == "list[";
    if fuel > 0 {
      CrossedMiddle(x, y);
      SplitOne(m, '|');
      assert m[|x|] == ']' && m[|x| + 2] == '|';
      NotAToken(m, env, |x|);
      assert PlainChar(m[|m| - 1]);
      NeverEnds(m, env, fuel - 1);
      assert Trimmed(t);
      GenericStep("list", m, env, fuel);
    }
  }
}
