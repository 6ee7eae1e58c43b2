/** The generator's path from Python annotations to TypeScript types: print the
    annotation, then translate the printed string. */
module TypeTranslator {
  import opened Options
  import opened TypeStrings

  /** Annotation syntax trees. A one-element `args` is a plain subscript, a
      longer one a tuple subscript. */
  datatype Ann =
    | NoneConst
    | Name(id: string)
    | Attribute(value: Ann, attr: string)
    | Subscript(generic: Ann, args: seq<Ann>)
    | BitOr(left: Ann, right: Ann)

  // ----- the printer -----

  function Print(a: Ann): string {
    match a
    case NoneConst => "None"
    case Name(id) => id
    case Attribute(value, attr) => Print(value) + "." + attr
    case Subscript(generic, args) => Print(generic) + "[" + Glue(PrintAll(args), ", ") + "]"
    case BitOr(left, right) => Print(left) + " | " + Print(right)
  }

  function PrintAll(args: seq<Ann>): seq<string> {
    if args == [] then [] else [Print(args[0])] + PrintAll(args[1..])
  }

  // ----- the string translator -----

  /** The collected class names; enum classes are also in `enums`. */
  datatype Env = Env(known: set<string>, enums: set<string>)

  function MapType(t: string): Option<string> {
    if t == "str" then Some("string")
    else if t == "int" then Some("number")
    else if t == "float" then Some("number")
    else if t == "bool" then Some("boolean")
    else if t == "Any" then Some("unknown")
    else if t == "NoneType" then Some("null")
    else if t == "None" then Some("null")
    else None
  }

  predicate Bracketed(t: string, head: string) {
    |t| > |head| && t[..|head|] == head && t[|t| - 1] == ']'
  }

  function Inner(t: string, head: string): string
    requires Bracketed(t, head)
  {
    t[|head|..|t| - 1]
  }

  /** Translates with the given recursion depth left; `None` is a recursion error. */
  function Translate(s: string, env: Env, fuel: nat): Option<string>
    decreases fuel, 0
  {
    if fuel == 0 then None else
    var t := Strip(s);
    if MapType(t).Some? then MapType(t)
    else if t in env.known && t in env.enums then Some(t + "Value")
    else if t in env.known then Some(t)
    else TranslateForm(t, env, fuel - 1)
  }

  /** Generics and unions; anything else is left as it is. */
  function TranslateForm(t: string, env: Env, fuel: nat): Option<string>
    decreases fuel, 3
  {
    if Bracketed(t, "Optional[") then
      var r := Translate(Inner(t, "Optional["), env, fuel);
      if r.None? then None else Some(r.value + " | null")
    else if Bracketed(t, "dict[") then
      TranslateDict(Split(Inner(t, "dict["), ','), env, fuel)
    else if Bracketed(t, "list[") then
      var r := Translate(Inner(t, "list["), env, fuel);
      if r.None? then None else Some("Array<" + r.value + ">")
    else if '|' in t then
      var r := TranslateAll(Split(t, '|'), env, fuel);
      if r.None? then None else Some(Glue(r.value, " | "))
    else Some(t)
  }

  function TranslateDict(parts: seq<string>, env: Env, fuel: nat): Option<string>
    decreases fuel, 1
  {
    if |parts| != 2 then Some("Record<" + "string" + ", " + "unknown" + ">") else
    var k, v := Translate(parts[0], env, fuel), Translate(parts[1], env, fuel);
    if k.None? || v.None? then None else Some("Record<" + k.value + ", " + v.value + ">")
  }

  function TranslateAll(parts: seq<string>, env: Env, fuel: nat): Option<seq<string>>
    decreases fuel, 1, |parts|
  {
    if parts == [] then Some([]) else
    var first, rest := Translate(parts[0], env, fuel), TranslateAll(parts[1..], env, fuel);
    if first.None? || rest.None? then None else Some([first.value] + rest.value)
  }

  // ----- the annotations the translator is meant for -----

  predicate PlainChar(c: char) {
    !IsSpace(c) && c != '[' && c != ']' && c != '(' && c != ')' && c != ',' && c != '|' && c != '<'
  }

  predicate Plain(s: string) {
    s != "" && forall i :: 0 <= i < |s| ==> PlainChar(s[i])
  }

  predicate Leaf(a: Ann) {
    match a
    case NoneConst => true
    case Name(id) => Plain(id)
    case Attribute(value, attr) => Leaf(value) && Plain(attr)
    case _ => false
  }

  predicate IsGeneric(a: Ann, name: string, arity: nat) {
    a.Subscript? && a.generic == Name(name) && |a.args| == arity
  }

  /** Names, None, Optional[T], list[T], dict[K, V] and unions of these. */
  predicate InGrammar(a: Ann) {
    || Leaf(a)
    || (IsGeneric(a, "Optional", 1) && InGrammar(a.args[0]))
    || (IsGeneric(a, "list", 1) && InGrammar(a.args[0]))
    || (IsGeneric(a, "dict", 2) && InGrammar(a.args[0]) && InGrammar(a.args[1]))
    || (a.BitOr? && InGrammar(a.left) && InGrammar(a.right))
  }

  predicate PlainEnv(env: Env) {
    forall k :: k in env.known ==> Plain(k)
  }

  /** What the built-in names are in TypeScript. */
  const BUILT_IN := map["str" := "string", "int" := "number", "float" := "number", "bool" := "boolean",
                        "Any" := "unknown", "NoneType" := "null", "None" := "null"]

  /** The parts of a dotted name. */
  function Parts(a: Ann): (r: seq<string>)
    requires Leaf(a)
    ensures r != []
  {
    match a
    case NoneConst => ["None"]
    case Name(id) => [id]
    case Attribute(value, attr) => Parts(value) + [attr]
  }

  /** A class by its name, an enum by the name of its values. */
  function Reference(name: string, env: Env): string {
    if name in env.known && name in env.enums then name + "Value" else name
  }

  function LeafType(a: Ann, env: Env): string
    requires Leaf(a)
  {
    match a
    case NoneConst => "null"
    case Name(id) => if id in BUILT_IN then BUILT_IN[id] else Reference(id, env)
    case Attribute(_, _) => Reference(Glue(Parts(a), "."), env)
  }

  /** The compositional translation the generator is meant to compute. */
  function Direct(a: Ann, env: Env): string
    requires InGrammar(a)
  {
    if Leaf(a) then LeafType(a, env)
    else if IsGeneric(a, "Optional", 1) then Direct(a.args[0], env) + " | null"
    else if IsGeneric(a, "list", 1) then "Array<" + Direct(a.args[0], env) + ">"
    else if IsGeneric(a, "dict", 2) then "Record<" + Direct(a.args[0], env) + ", " + Direct(a.args[1], env) + ">"
    else Direct(a.left, env) + " | " + Direct(a.right, env)
  }

  function First(a: Ann): Ann {
    if a.BitOr? then First(a.left) else a
  }

  function Last(a: Ann): Ann {
    if a.BitOr? then Last(a.right) else a
  }

  /** A union whose text both starts and ends with a bracketed generic. */
  predicate Misread(a: Ann) {
    a.BitOr? && First(a).Subscript? && Last(a).Subscript?
  }

  /** Somewhere in the annotation a whole union is misread. */
  predicate HasMisread(a: Ann)
    decreases a, 0
  {
    match a
    case Subscript(_, args) => exists i :: 0 <= i < |args| && HasMisread(args[i])
    case BitOr(left, right) => Misread(a) || MemberMisread(left) || MemberMisread(right)
    case _ => false
  }

  /** Some member of the union has a misread union inside. */
  predicate MemberMisread(a: Ann)
    decreases a, 1
  {
    if a.BitOr? then MemberMisread(a.left) || MemberMisread(a.right) else HasMisread(a)
  }

  // ----- shapes of printed annotations -----

  /** What every printed annotation satisfies. */
  predicate Shaped(s: string) {
    Trimmed(s) && Depth(s) == 0 && NonNegative(0, s) && NoCut(0, s, ',')
  }

  lemma {:induction false} PlainShape(s: string)
    requires forall i :: 0 <= i < |s| ==> PlainChar(s[i])
    ensures Depth(s) == 0 && Weight(s) == 0 && NonNegative(0, s) && NoCut(0, s, ',') && NoCut(0, s, '|')
  {
    if s != "" {
      assert forall i :: 0 <= i < |s[1..]| ==> s[1..][i] == s[i + 1];
      PlainShape(s[1..]);
    }
  }

  lemma {:induction false} LeafPlain(a: Ann)
    requires Leaf(a)
    ensures Plain(Print(a))
  {
    match a
    case NoneConst =>
    case Name(_) =>
    case Attribute(value, attr) => LeafPlain(value);
  }

  lemma NonNegativeCat(a: string, b: string)
    requires Depth(a) == 0 && NonNegative(0, a) && Depth(b) == 0 && NonNegative(0, b)
    ensures Depth(a + b) == 0 && NonNegative(0, a + b)
  {
    DepthAppend(a, b);
    NonNegativeAppend(0, a, b);
  }

  lemma NoCutCat(a: string, b: string, sep: char)
    requires Depth(a) == 0 && NoCut(0, a, sep) && NoCut(0, b, sep)
    ensures NoCut(0, a + b, sep)
  {
    NoCutAppend(0, a, b, sep);
  }

  lemma BodyNoCut(x: string, sep: char)
    requires (sep == ',' || sep == '|') && Depth(x) == 0 && NonNegative(0, x)
    ensures NoCut(0, "[" + x + "]", sep)
  {
    InsideNoCut(0, x, sep);
    NoCutAppend(1, x, "]", sep);
    assert ("[" + x + "]")[1..] == x + "]";
  }

  lemma BodyShape(x: string)
    requires Depth(x) == 0 && NonNegative(0, x)
    ensures var body := "[" + x + "]"; Depth(body) == 0 && NonNegative(0, body) && Weight(body) == 1 + Weight(x)
  {
    assert ("[" + x + "]")[1..] == x + "]";
    DepthAppend(x, "]");
    WeightAppend(x, "]");
    DeeperNonNegative(0, 1, x);
    NonNegativeAppend(1, x, "]");
  }

  /** A bracketed generic around balanced text. */
  lemma BracketShape(h: string, x: string)
    requires Plain(h) && Depth(x) == 0 && NonNegative(0, x)
    ensures var s := h + "[" + x + "]";
            Shaped(s) && NoCut(0, s, '|') && Weight(s) == 1 + Weight(x) && s[|s| - 1] == ']'
  {
    var body := "[" + x + "]";
    assert h + "[" + x + "]" == h + body;
    PlainShape(h);
    BodyShape(x);
    BodyNoCut(x, ',');
    BodyNoCut(x, '|');
    WeightAppend(h, body);
    NonNegativeCat(h, body);
    NoCutCat(h, body, ',');
    NoCutCat(h, body, '|');
  }

  lemma SeparatorShape()
    ensures Depth(" | ") == 0 && NonNegative(0, " | ") && NoCut(0, " | ", ',') && Weight(" | ") == 1
    ensures Depth(", ") == 0 && NonNegative(0, ", ") && Weight(", ") == 0
  {
    assert " | "[1..] == "| " && "| "[1..] == " " && " "[1..] == "";
    assert ", "[1..] == " ";
  }

  /** Two printed annotations joined by a bar or a comma. */
  lemma JoinShape(a: string, b: string, sep: string)
    requires Shaped(a) && Shaped(b) && (sep == " | " || sep == ", ")
    ensures var s := a + sep + b;
            && Trimmed(s) && Depth(s) == 0 && NonNegative(0, s)
            && (sep == " | " ==> NoCut(0, s, ','))
            && Weight(s) == Weight(a) + Weight(sep) + Weight(b)
  {
    SeparatorShape();
    NonNegativeCat(a, sep);
    NonNegativeCat(a + sep, b);
    WeightAppend(a, sep);
    WeightAppend(a + sep, b);
    if sep == " | " {
      NoCutCat(a, sep, ',');
      NoCutCat(a + sep, b, ',');
    }
  }

  lemma PrintOne(name: string, x: Ann)
    ensures Print(Subscript(Name(name), [x])) == name + "[" + Print(x) + "]"
  {
    assert PrintAll([x]) == [Print(x)];
  }

  lemma PrintTwo(name: string, x: Ann, y: Ann)
    ensures Print(Subscript(Name(name), [x, y])) == name + "[" + (Print(x) + ", " + Print(y)) + "]"
  {
    assert [x, y][1..] == [y];
    assert PrintAll([y]) == [Print(y)];
    var all := [Print(x), Print(y)];
    assert PrintAll([x, y]) == all;
    assert all[1..] == [Print(y)];
    assert Glue(all, ", ") == Print(x) + ", " + Print(y);
  }

  /** How an annotation of the grammar prints. */
  lemma PrintForms(a: Ann)
    requires InGrammar(a)
    ensures IsGeneric(a, "Optional", 1) ==> Print(a) == "Optional" + "[" + Print(a.args[0]) + "]"
    ensures IsGeneric(a, "list", 1) ==> Print(a) == "list" + "[" + Print(a.args[0]) + "]"
    ensures IsGeneric(a, "dict", 2) ==> Print(a) == "dict" + "[" + (Print(a.args[0]) + ", " + Print(a.args[1])) + "]"
    ensures Plain("Optional") && Plain("list") && Plain("dict")
  {
    if a.Subscript? && |a.args| == 1 {
      assert a.args == [a.args[0]];
      if a.generic.Name? { PrintOne(a.generic.id, a.args[0]); }
    }
    if a.Subscript? && |a.args| == 2 {
      assert a.args == [a.args[0], a.args[1]];
      if a.generic.Name? { PrintTwo(a.generic.id, a.args[0], a.args[1]); }
    }
  }

  lemma {:induction false} PrintShape(a: Ann)
    requires InGrammar(a)
    ensures Shaped(Print(a))
    ensures !a.BitOr? ==> NoCut(0, Print(a), '|')
    ensures Last(a).Subscript? <==> Print(a)[|Print(a)| - 1] == ']'
  {
    PrintForms(a);
    if Leaf(a) {
      LeafPlain(a);
      PlainShape(Print(a));
    } else if a.BitOr? {
      PrintShape(a.left);
      PrintShape(a.right);
      JoinShape(Print(a.left), Print(a.right), " | ");
    } else if |a.args| == 1 {
      PrintShape(a.args[0]);
      BracketShape(a.generic.id, Print(a.args[0]));
    } else {
      PrintShape(a.args[0]);
      PrintShape(a.args[1]);
      JoinShape(Print(a.args[0]), Print(a.args[1]), ", ");
      BracketShape("dict", Print(a.args[0]) + ", " + Print(a.args[1]));
    }
  }
}
