/**
 The enum printer and parser that scripts/generate_dnnl_debug.py emits.  The generator is
 modelled by the statement lists it writes, and those lists by what they do when called.
 */
module DebugText {

  datatype Option<T> = None | Some(value: T)

  const PREFIX := "dnnl_"
  const SCRATCHPAD := "dnnl_scratchpad_mode_"
  const FORMAT_KIND := "dnnl_format_kind_"

  // ---- strings ----

  predicate Occurs(s: string, i: nat, sub: string) {
    i + |sub| <= |s| && s[i..i + |sub|] == sub
  }

  /** sub in s */
  predicate Contains(s: string, sub: string) {
    exists i: nat :: i <= |s| && Occurs(s, i, sub)
  }

  /** The leftmost occurrence. */
  function First(s: string, sub: string): (i: nat)
    requires Contains(s, sub)
    ensures Occurs(s, i, sub) && forall k: nat :: k < i ==> !Occurs(s, k, sub)
    decreases |s|
  {
    if Occurs(s, 0, sub) then 0
    else
      assert forall k: nat :: k > 0 && Occurs(s, k, sub) ==> Occurs(s[1..], k - 1, sub);
      assert forall k: nat :: k < |s| && Occurs(s[1..], k, sub) ==> Occurs(s, k + 1, sub);
      1 + First(s[1..], sub)
  }

  /** s.split(sep)[-1] */
  function LastPiece(s: string, sep: string): (p: string)
    requires |sep| > 0
    decreases |s|
  {
    if Contains(s, sep) then LastPiece(s[First(s, sep) + |sep|..], sep) else s
  }

  // ---- the generator ----

  /** sanitize_value */
  function Sanitize(v: string): string {
    if Contains(v, "undef") then "undef"
    else if Contains(v, "any") then "any"
    else LastPiece(LastPiece(LastPiece(v, SCRATCHPAD), FORMAT_KIND), PREFIX)
  }

  predicate Special(v: string) {
    Contains(v, "undef") || Contains(v, "any") || Contains(v, "last")
  }

  /** re.search(r'(any|undef|last)', v).group(): the leftmost of the three words. */
  function Short(v: string): string
    requires Special(v)
    decreases |v|
  {
    if Occurs(v, 0, "any") then "any"
    else if Occurs(v, 0, "undef") then "undef"
    else if Occurs(v, 0, "last") then "last"
    else
      SpecialTail(v);
      Short(v[1..])
  }

  lemma SpecialTail(v: string)
    requires Special(v) && !Occurs(v, 0, "any") && !Occurs(v, 0, "undef") && !Occurs(v, 0, "last")
    ensures |v| > 0 && Special(v[1..])
  {
    TailContains(v, "any");
    TailContains(v, "undef");
    TailContains(v, "last");
  }

  lemma TailContains(v: string, sub: string)
    requires |sub| > 0
    ensures Contains(v, sub) && !Occurs(v, 0, sub) ==> |v| > 0 && Contains(v[1..], sub)
    ensures |v| > 0 && Contains(v[1..], sub) ==> Contains(v, sub)
  {
    if Contains(v, sub) && !Occurs(v, 0, sub) {
      var i: nat :| i <= |v| && Occurs(v, i, sub);
      InTail(v, 1, i, sub);
    }
    if |v| > 0 && Contains(v[1..], sub) {
      InWhole(v, 1, sub);
    }
  }

  /** What the generated parser consists of: CASE lines, then comparisons with a short and a full name. */
  datatype Parser = Parser(cases: seq<string>, specials: seq<string>, undef: string)

  /** func_to_str: one comparison per name, in order.  The text returned is the sanitized name. */
  method FuncToStr(values: seq<string>) returns (func: seq<(string, string)>)
    ensures func == Texts(values)
  {
    func := [];
    for i := 0 to |values|
      invariant |func| == i && forall k :: 0 <= k < i ==> func[k] == (values[k], Sanitize(values[k]))
    {
      func := func + [(values[i], Sanitize(values[i]))];
    }
  }

  function Cases(values: seq<string>): seq<string> {
    if |values| == 0 then []
    else
      var v := values[|values| - 1];
      Cases(values[..|values| - 1]) + (if Special(v) then [] else [Sanitize(v)])
  }

  function Specials(values: seq<string>): seq<string> {
    if |values| == 0 then []
    else
      var v := values[|values| - 1];
      Specials(values[..|values| - 1]) + (if Special(v) then [v] else [])
  }

  /** The undefined value: the last name that contains the word. */
  function Undef(values: seq<string>): Option<string> {
    if |values| == 0 then None
    else if Contains(values[|values| - 1], "undef") then Some(values[|values| - 1])
    else Undef(values[..|values| - 1])
  }

  /** str_to_func; without an undefined value the script stops with a name error. */
  method StrToFunc(values: seq<string>) returns (parser: Option<Parser>)
    ensures parser == if Undef(values).None? then None else Some(Generated(values))
  {
    var cases, specials, undef := [], [], None;
    for i := 0 to |values|
      invariant cases == Cases(values[..i]) && specials == Specials(values[..i]) && undef == Undef(values[..i])
    {
      var v := values[i];
      assert values[..i + 1][..i] == values[..i] && values[..i + 1][i] == v;
      if Contains(v, "undef") {
        undef := Some(v);
        specials := specials + [v];
      } else if Contains(v, "any") || Contains(v, "last") {
        specials := specials + [v];
      } else {
        cases := cases + [Sanitize(v)];
      }
    }
    assert values[..|values|] == values;
    return if undef.None? then None else Some(Parser(cases, specials, undef.value));
  }

  // ---- the generated code ----

  type Enum = map<string, int>  // the values of the enumerators

  /** The generated printer: the first listed name with this value decides. */
  function Print(env: Enum, func: seq<(string, string)>, x: int): Option<string>
    requires forall i :: 0 <= i < |func| ==> func[i].0 in env
  {
    if |func| == 0 then None
    else if env[func[0].0] == x then Some(func[0].1)
    else Print(env, func[1..], x)
  }

  datatype Parsed = Found(value: int) | Unknown(fallback: int)

  /** The CASE lines. */
  function ParseCases(env: Enum, cases: seq<string>, str: string): Option<int>
    requires forall i :: 0 <= i < |cases| ==> PREFIX + cases[i] in env
  {
    if |cases| == 0 then None
    else if cases[0] == str || PREFIX + cases[0] == str then Some(env[PREFIX + cases[0]])
    else ParseCases(env, cases[1..], str)
  }

  function ParseSpecials(env: Enum, specials: seq<string>, str: string): Option<int>
    requires forall i :: 0 <= i < |specials| ==> specials[i] in env && Special(specials[i])
  {
    if |specials| == 0 then None
    else if Short(specials[0]) == str || specials[0] == str then Some(env[specials[0]])
    else ParseSpecials(env, specials[1..], str)
  }

  /** Every identifier in the generated parser is an enumerator. */
  ghost predicate Compiles(env: Enum, p: Parser) {
    && (forall i :: 0 <= i < |p.cases| ==> PREFIX + p.cases[i] in env)
    && (forall i :: 0 <= i < |p.specials| ==> p.specials[i] in env && Special(p.specials[i]))
    && p.undef in env
  }

  function Parse(env: Enum, p: Parser, str: string): Parsed
    requires Compiles(env, p)
  {
    match ParseCases(env, p.cases, str)
    case Some(x) => Found(x)
    case None =>
      match ParseSpecials(env, p.specials, str)
      case Some(x) => Found(x)
      case None => Unknown(env[p.undef])
  }

  // ---- well-formed enums ----

  /** "dnnl_" and a suffix without another "dnnl_". */
  predicate Named(v: string) {
    PREFIX <= v && !Contains(v[|PREFIX|..], PREFIX)
  }

  /** Names that start with one of the two longer prefixes, which sanitize_value strips as a whole. */
  predicate Overstripped(v: string) {
    SCRATCHPAD <= v || FORMAT_KIND <= v
  }

  function Stripped(v: string): string
    requires PREFIX <= v
  {
    if SCRATCHPAD <= v then v[|SCRATCHPAD|..] else if FORMAT_KIND <= v then v[|FORMAT_KIND|..] else v[|PREFIX|..]
  }

  ghost predicate AtMostOne(values: seq<string>, word: string) {
    forall i, j :: 0 <= i < |values| && 0 <= j < |values| && Contains(values[i], word) && Contains(values[j], word) ==> i == j
  }

  ghost predicate WellFormed(values: seq<string>) {
    && (forall v :: v in values ==> Named(v))
    && AtMostOne(values, "undef") && AtMostOne(values, "any")
  }

  /** What the script generates for the enum; it needs an undefined value. */
  function Generated(values: seq<string>): Parser
    requires Undef(values).Some?
  {
    Parser(Cases(values), Specials(values), Undef(values).value)
  }

  function Texts(values: seq<string>): seq<(string, string)> {
    seq(|values|, i requires 0 <= i < |values| => (values[i], Sanitize(values[i])))
  }

  // ---- substrings ----

  lemma OccursAt(s: string, i: nat, sub: string, k: nat)
    requires Occurs(s, i, sub) && k < |sub|
    ensures s[i + k] == sub[k]
  {
    assert s[i..i + |sub|][k] == s[i + k];
  }

  /** A substring is a piece of the string. */
  lemma ContainsIs(s: string, sub: string)
    ensures Contains(s, sub) <==> exists a, b :: s == a + sub + b
  {
    if Contains(s, sub) {
      var i := First(s, sub);
      assert s == s[..i] + sub + s[i + |sub|..];
    }
    if a, b :| s == a + sub + b {
      assert s[|a|..|a| + |sub|] == sub;
      assert Occurs(s, |a|, sub);
    }
  }

  /** What is behind the last separator: it holds none, and if there was one, the rest ends with it. */
  lemma {:induction false} LastPieceIs(s: string, sep: string) returns (front: string)
    requires |sep| > 0
    ensures !Contains(LastPiece(s, sep), sep)
    ensures !Contains(s, sep) ==> LastPiece(s, sep) == s
    ensures Contains(s, sep) ==> s == front + sep + LastPiece(s, sep)
    decreases |s|
  {
    front := [];
    if Contains(s, sep) {
      var i := First(s, sep);
      var rest := s[i + |sep|..];
      assert s == s[..i] + sep + rest;
      var inner := LastPieceIs(rest, sep);
      if Contains(rest, sep) {
        front := s[..i] + sep + inner;
        Reassociate(s[..i] + sep, inner, sep, LastPiece(rest, sep));
      } else {
        front := s[..i];
      }
    }
  }

  lemma Reassociate(a: string, b: string, c: string, d: string)
    ensures a + (b + c + d) == (a + b) + c + d
  {
  }

  lemma InTail(s: string, n: nat, i: nat, sub: string)
    requires n <= i && Occurs(s, i, sub)
    ensures Contains(s[n..], sub)
  {
    assert s[n..][i - n..i - n + |sub|] == s[i..i + |sub|];
    assert Occurs(s[n..], i - n, sub);
  }

  lemma InWhole(s: string, n: nat, sub: string)
    requires n <= |s| && Contains(s[n..], sub)
    ensures Contains(s, sub)
  {
    var i := First(s[n..], sub);
    assert s[n..][i..i + |sub|] == s[n + i..n + i + |sub|];
    assert Occurs(s, n + i, sub);
  }

  lemma Shorter(s: string, sub: string, front: string)
    requires front <= sub
    ensures Contains(s, sub) ==> Contains(s, front)
  {
    if Contains(s, sub) {
      var i := First(s, sub);
      assert s[i..i + |front|] == s[i..i + |sub|][..|front|];
      assert Occurs(s, i, front);
    }
  }

  lemma AtFront(s: string, sub: string)
    requires sub <= s
    ensures Contains(s, sub)
  {
    assert Occurs(s, 0, sub);
  }

  /** A string that does not hold the letter d does not hold the prefix. */
  lemma ShortTexts()
    ensures !Contains("any", PREFIX) && !Contains("undef", PREFIX) && !Contains("last", PREFIX)
    ensures !Contains("any", "last") && !Contains("undef", "last")
    ensures Contains("any", "any") && Contains("undef", "undef") && Contains("last", "last")
  {
    forall i: nat ensures !Occurs("undef", i, PREFIX) && !Occurs("undef", i, "last") {
      if Occurs("undef", i, PREFIX) { OccursAt("undef", i, PREFIX, 0); }
      if Occurs("undef", i, "last") { OccursAt("undef", i, "last", 0); }
    }
    AtFront("any", "any");
    AtFront("undef", "undef");
    AtFront("last", "last");
  }

  // ---- what sanitizing does to names ----

  /** In a name "dnnl_" occurs at the front and nowhere else. */
  lemma PrefixOnce(v: string, i: nat)
    requires Named(v) && Occurs(v, i, PREFIX)
    ensures i == 0
  {
    OccursAt(v, i, PREFIX, 0);
    if i >= 5 { InTail(v, 5, i, PREFIX); }
  }

  lemma OnlyAtFront(v: string, sep: string)
    requires Named(v) && PREFIX <= sep
    ensures Contains(v, sep) <==> sep <= v
    ensures Contains(v, sep) ==> First(v, sep) == 0
  {
    if Contains(v, sep) {
      var i := First(v, sep);
      assert v[i..i + 5] == v[i..i + |sep|][..5] == PREFIX;
      PrefixOnce(v, i);
    } else if sep <= v {
      AtFront(v, sep);
    }
  }

  /** Without "dnnl_" there is nothing to split. */
  lemma Unsplit(v: string, sep: string)
    requires !Contains(v, PREFIX) && PREFIX <= sep
    ensures LastPiece(v, sep) == v
  {
    Shorter(v, sep, PREFIX);
  }

  lemma RestIsFree(v: string, n: nat)
    requires Named(v) && 5 <= n <= |v|
    ensures !Contains(v[n..], PREFIX)
  {
    if Contains(v[n..], PREFIX) {
      assert v[5..][n - 5..] == v[n..];
      InWhole(v[5..], n - 5, PREFIX);
    }
  }

  lemma SplitName(v: string, sep: string)
    requires Named(v) && PREFIX <= sep
    ensures LastPiece(v, sep) == if sep <= v then v[|sep|..] else v
  {
    OnlyAtFront(v, sep);
    if sep <= v {
      RestIsFree(v, |sep|);
      Unsplit(v[|sep|..], sep);
      SplitFront(v, sep);
    }
  }

  lemma SplitFront(v: string, sep: string)
    requires |sep| > 0 && Contains(v, sep) && First(v, sep) == 0
    ensures LastPiece(v, sep) == LastPiece(v[|sep|..], sep)
  {
  }

  lemma SanitizeStrips(v: string)
    requires Named(v)
    ensures !Contains(Stripped(v), PREFIX)
    ensures !Contains(v, "undef") && !Contains(v, "any") ==> Sanitize(v) == Stripped(v)
  {
    SplitName(v, SCRATCHPAD);
    SplitName(v, FORMAT_KIND);
    SplitName(v, PREFIX);
    RestIsFree(v, |v| - |Stripped(v)|);
    Unsplit(Stripped(v), FORMAT_KIND);
    Unsplit(Stripped(v), PREFIX);
  }

  /** What the printer says never contains "dnnl_". */
  lemma TextHasNoPrefix(v: string)
    requires Named(v)
    ensures !Contains(Sanitize(v), PREFIX)
  {
    SanitizeStrips(v);
    ShortTexts();
  }

  lemma LastAfter(v: string, pre: string)
    requires pre <= v && Contains(v, "last")
    requires |pre| >= 5 && (forall k :: 0 <= k < |pre| && pre[k] == 'l' ==> k == 3) && pre[4] == '_'
    ensures Contains(v[|pre|..], "last")
  {
    assert forall k :: 0 <= k < |pre| ==> v[k] == pre[k];
    var i := First(v, "last");
    OccursAt(v, i, "last", 0);
    OccursAt(v, i, "last", 1);
    InTail(v, |pre|, i, "last");
  }

  /** No stripped prefix can hide a part of the word. */
  lemma LastSurvives(v: string)
    requires Named(v) && Contains(v, "last")
    ensures Contains(Stripped(v), "last")
  {
    LastAfter(v, if SCRATCHPAD <= v then SCRATCHPAD else if FORMAT_KIND <= v then FORMAT_KIND else PREFIX);
  }

  lemma {:induction false} ShortOccurs(v: string)
    requires Special(v)
    ensures Short(v) in {"any", "undef", "last"} && Contains(v, Short(v))
    decreases |v|
  {
    if !Occurs(v, 0, "any") && !Occurs(v, 0, "undef") && !Occurs(v, 0, "last") {
      SpecialTail(v);
      ShortOccurs(v[1..]);
      TailContains(v, Short(v[1..]));
    }
  }

  /** One of the three words stands here. */
  predicate WordAt(v: string, i: nat) {
    Occurs(v, i, "any") || Occurs(v, i, "undef") || Occurs(v, i, "last")
  }

  /** The short word is the leftmost of the three. */
  lemma {:induction false} ShortIsLeftmost(v: string) returns (i: nat)
    requires Special(v)
    ensures Occurs(v, i, Short(v)) && Short(v) in {"any", "undef", "last"} && forall k: nat :: k < i ==> !WordAt(v, k)
    decreases |v|
  {
    if WordAt(v, 0) {
      i := 0;
    } else {
      SpecialTail(v);
      var n := ShortIsLeftmost(v[1..]);
      i := n + 1;
      TailOccurs(v, i, Short(v[1..]));
      NoWordBefore(v, n);
    }
  }

  lemma NoWordBefore(v: string, n: nat)
    requires |v| > 0 && !WordAt(v, 0) && forall k: nat :: k < n ==> !WordAt(v[1..], k)
    ensures forall k: nat :: k < n + 1 ==> !WordAt(v, k)
  {
    forall k: nat | k < n + 1 ensures !WordAt(v, k) {
      if k > 0 {
        TailWord(v, k);
        assert !WordAt(v[1..], k - 1);
      }
    }
  }

  lemma TailWord(v: string, k: nat)
    requires 0 < k && |v| > 0
    ensures WordAt(v, k) <==> WordAt(v[1..], k - 1)
  {
    TailOccurs(v, k, "any");
    TailOccurs(v, k, "undef");
    TailOccurs(v, k, "last");
  }

  lemma TailOccurs(v: string, k: nat, sub: string)
    requires 0 < k && |v| > 0
    ensures Occurs(v, k, sub) <==> Occurs(v[1..], k - 1, sub)
  {
    if k + |sub| <= |v| { assert v[k..k + |sub|] == v[1..][k - 1..k - 1 + |sub|]; }
  }

  // ---- the lists ----

  lemma {:induction false} CasesAre(values: seq<string>, c: string)
    ensures c in Cases(values) <==> exists v :: v in values && !Special(v) && Sanitize(v) == c
  {
    if |values| > 0 {
      CasesAre(values[..|values| - 1], c);
      assert values == values[..|values| - 1] + [values[|values| - 1]];
    }
  }

  lemma {:induction false} SpecialsAre(values: seq<string>, v: string)
    ensures v in Specials(values) <==> v in values && Special(v)
  {
    if |values| > 0 {
      SpecialsAre(values[..|values| - 1], v);
      assert values == values[..|values| - 1] + [values[|values| - 1]];
    }
  }

  /** values[i] contains the word, and no later name does. */
  ghost predicate LastNamed(values: seq<string>, i: nat, word: string) {
    i < |values| && Contains(values[i], word) && forall k :: i < k < |values| ==> !Contains(values[k], word)
  }

  /** The undefined value: there is one exactly if some name contains the word, and it is the last such name. */
  lemma {:induction false} UndefIs(values: seq<string>)
    ensures Undef(values).Some? <==> exists v :: v in values && Contains(v, "undef")
    ensures Undef(values).Some? ==> Undef(values).value in values && Contains(Undef(values).value, "undef")
    ensures Undef(values).Some? ==> exists i: nat :: LastNamed(values, i, "undef") && values[i] == Undef(values).value
  {
    if |values| > 0 {
      var n := |values| - 1;
      assert values == values[..n] + [values[n]];
      if Contains(values[n], "undef") {
        assert LastNamed(values, n, "undef");
      } else {
        UndefIs(values[..n]);
        if Undef(values).Some? {
          var i: nat :| LastNamed(values[..n], i, "undef") && values[..n][i] == Undef(values[..n]).value;
          assert LastNamed(values, i, "undef") && values[i] == Undef(values).value;
        }
      }
    }
  }

  lemma FrontOf(a: seq<string>, b: seq<string>)
    requires |b| > 0
    ensures (a + b)[..|a + b| - 1] == a + b[..|b| - 1] && (a + b)[|a + b| - 1] == b[|b| - 1]
  {
  }

  lemma {:induction false} CasesInOrder(a: seq<string>, b: seq<string>)
    ensures Cases(a + b) == Cases(a) + Cases(b)
    decreases |b|
  {
    if |b| == 0 {
      assert a + b == a;
    } else {
      FrontOf(a, b);
      CasesInOrder(a, b[..|b| - 1]);
    }
  }

  lemma {:induction false} SpecialsInOrder(a: seq<string>, b: seq<string>)
    ensures Specials(a + b) == Specials(a) + Specials(b)
    decreases |b|
  {
    if |b| == 0 {
      assert a + b == a;
    } else {
      FrontOf(a, b);
      SpecialsInOrder(a, b[..|b| - 1]);
    }
  }

  /** Both lists keep the order of the names. */
  lemma ListsInOrder(a: seq<string>, b: seq<string>)
    ensures Cases(a + b) == Cases(a) + Cases(b) && Specials(a + b) == Specials(a) + Specials(b)
  {
    CasesInOrder(a, b);
    SpecialsInOrder(a, b);
  }

  lemma ListsOfOne(v: string)
    ensures Cases([v]) == (if Special(v) then [] else [Sanitize(v)]) && Specials([v]) == (if Special(v) then [v] else [])
  {
    assert [v][..0] == [];
  }

  predicate CaseMatches(c: string, str: string) { c == str || PREFIX + c == str }

  predicate SpecialMatches(v: string, str: string) requires Special(v) { Short(v) == str || v == str }

  /** If every line that matches returns x, the search returns x exactly when a line matches. */
  lemma {:induction false} CasesAgree(env: Enum, cases: seq<string>, str: string, x: int)
    requires forall i :: 0 <= i < |cases| ==> PREFIX + cases[i] in env
    requires forall c :: c in cases && CaseMatches(c, str) ==> env[PREFIX + c] == x
    ensures ParseCases(env, cases, str) == if exists c :: c in cases && CaseMatches(c, str) then Some(x) else None
  {
    if |cases| > 0 {
      assert cases[0] in cases;
      assert forall c :: c in cases <==> c == cases[0] || c in cases[1..];
      CasesAgree(env, cases[1..], str, x);
    }
  }

  lemma {:induction false} SpecialsAgree(env: Enum, specials: seq<string>, str: string, x: int)
    requires forall i :: 0 <= i < |specials| ==> specials[i] in env && Special(specials[i])
    requires forall v :: v in specials && SpecialMatches(v, str) ==> env[v] == x
    ensures ParseSpecials(env, specials, str) == if exists v :: v in specials && SpecialMatches(v, str) then Some(x) else None
  {
    if |specials| > 0 {
      assert specials[0] in specials;
      assert forall v :: v in specials <==> v == specials[0] || v in specials[1..];
      SpecialsAgree(env, specials[1..], str, x);
    }
  }

  // ---- the generated parser on the generated texts ----

  lemma CaseName(v: string)
    requires Named(v) && !Special(v)
    ensures Sanitize(v) == Stripped(v) && (!Overstripped(v) ==> PREFIX + Stripped(v) == v)
  {
    SanitizeStrips(v);
  }

  /** The CASE line of v names an existing enumerator. */
  predicate CaseExists(env: Enum, v: string)
    requires Named(v)
  {
    Overstripped(v) ==> PREFIX + Stripped(v) in env
  }

  lemma CasesExist(env: Enum, values: seq<string>)
    requires forall v :: v in values ==> v in env && Named(v)
    requires forall v :: v in values && !Special(v) ==> CaseExists(env, v)
    ensures forall c :: c in Cases(values) ==> PREFIX + c in env
  {
    forall c | c in Cases(values) ensures PREFIX + c in env {
      CasesAre(values, c);
      var v :| v in values && !Special(v) && Sanitize(v) == c;
      CaseName(v);
    }
  }

  /** The generated parser refers to existing enumerators only, exactly when every overstripped name still does. */
  lemma CompilesExactly(env: Enum, values: seq<string>)
    requires Undef(values).Some?
    requires forall v :: v in values ==> v in env && Named(v)
    ensures Compiles(env, Generated(values)) <==> forall v :: v in values && !Special(v) ==> CaseExists(env, v)
  {
    UndefIs(values);
    forall i | 0 <= i < |Specials(values)| ensures Specials(values)[i] in env && Special(Specials(values)[i]) {
      SpecialsAre(values, Specials(values)[i]);
    }
    if forall v :: v in values && !Special(v) ==> CaseExists(env, v) {
      CasesExist(env, values);
    } else {
      var v :| v in values && !Special(v) && !CaseExists(env, v);
      CaseName(v);
      CasesAre(values, Sanitize(v));
      var i :| 0 <= i < |Cases(values)| && Cases(values)[i] == Sanitize(v);
    }
  }

  lemma {:induction false} PrintIs(env: Enum, values: seq<string>, i: nat)
    requires forall v :: v in values ==> v in env
    requires i < |values| && forall k :: 0 <= k < i ==> env[values[k]] != env[values[i]]
    ensures Print(env, Texts(values), env[values[i]]) == Some(Sanitize(values[i]))
  {
    if i > 0 {
      assert Texts(values)[1..] == Texts(values[1..]);
      PrintIs(env, values[1..], i - 1);
    }
  }

  lemma TextWithin(v: string)
    requires Named(v)
    ensures Contains(v, Sanitize(v)) && (Special(v) ==> Special(Sanitize(v)))
  {
    ShortTexts();
    if !Contains(v, "undef") && !Contains(v, "any") {
      SanitizeStrips(v);
      AtFront(Stripped(v), Stripped(v));
      InWhole(v, |v| - |Stripped(v)|, Stripped(v));
      if Special(v) { LastSurvives(v); }
    }
  }

  lemma WordsWithin(v: string, n: nat)
    requires n <= |v| && Special(v[n..])
    ensures Special(v)
  {
    var w := if Contains(v[n..], "undef") then "undef" else if Contains(v[n..], "any") then "any" else "last";
    InWhole(v, n, w);
  }

  /** No CASE line answers to a text with one of the three words and no prefix. */
  lemma NoCase(env: Enum, values: seq<string>, text: string)
    requires Undef(values).Some? && Compiles(env, Generated(values)) && forall v :: v in values ==> Named(v)
    requires Special(text) && !Contains(text, PREFIX)
    ensures ParseCases(env, Cases(values), text) == None
  {
    forall c | c in Cases(values) ensures !CaseMatches(c, text) {
      CasesAre(values, c);
      var v :| v in values && !Special(v) && Sanitize(v) == c;
      CaseName(v);
      if Special(c) { WordsWithin(v, |v| - |c|); }
      if PREFIX <= text { AtFront(text, PREFIX); }
    }
    CasesAgree(env, Cases(values), text, 0);
  }

  /** A name without any of the words is parsed by the CASE lines, from its text. */
  lemma ParseRegular(env: Enum, values: seq<string>, v: string)
    requires Undef(values).Some? && Compiles(env, Generated(values)) && forall v :: v in values ==> Named(v)
    requires v in values && !Special(v)
    ensures PREFIX + Sanitize(v) in env
    ensures Parse(env, Generated(values), Sanitize(v)) == Found(env[PREFIX + Sanitize(v)])
  {
    var text := Sanitize(v);
    TextHasNoPrefix(v);
    CasesAre(values, text);
    if PREFIX <= text { AtFront(text, PREFIX); }
    var i :| 0 <= i < |Cases(values)| && Cases(values)[i] == text;
    assert CaseMatches(text, text);
    CasesAgree(env, Cases(values), text, env[PREFIX + text]);
  }

  /** Two names whose short word is the printed text of one of them are the same name. */
  lemma SameWord(values: seq<string>, f: string, g: string)
    requires WellFormed(values) && f in values && g in values && Special(g)
    requires Short(g) == Sanitize(f)
    requires Sanitize(f) == "last" ==> AtMostOne(values, "last")
    ensures f == g
  {
    TextWithin(f);
    ShortOccurs(g);
    var i :| 0 <= i < |values| && values[i] == f;
    var j :| 0 <= j < |values| && values[j] == g;
    assert AtMostOne(values, Sanitize(f));
  }

  lemma ParseSpecial(env: Enum, values: seq<string>, f: string)
    requires WellFormed(values) && Undef(values).Some? && Compiles(env, Generated(values))
    requires f in values && Special(f) && f in env
    requires Sanitize(f) == "last" ==> AtMostOne(values, "last")
    ensures Parse(env, Generated(values), Sanitize(f))
         == if Short(f) == Sanitize(f) then Found(env[f]) else Unknown(env[Undef(values).value])
  {
    var text := Sanitize(f);
    TextWithin(f);
    TextHasNoPrefix(f);
    NoCase(env, values, text);
    forall g | g in Specials(values) ensures SpecialMatches(g, text) <==> g == f && Short(f) == text {
      SpecialsAre(values, g);
      if g == text { AtFront(text, PREFIX); }
      if Short(g) == text { SameWord(values, f, g); }
    }
    SpecialsAre(values, f);
    SpecialsAgree(env, Specials(values), text, env[f]);
  }

  /** The first of these names whose short word is the text. */
  function FirstShort(specials: seq<string>, text: string): Option<string>
    requires forall v :: v in specials ==> Special(v)
  {
    if |specials| == 0 then None
    else if Short(specials[0]) == text then Some(specials[0])
    else FirstShort(specials[1..], text)
  }

  lemma {:induction false} SpecialsByShort(env: Enum, specials: seq<string>, text: string)
    requires forall i :: 0 <= i < |specials| ==> specials[i] in env && Special(specials[i])
    requires forall v :: v in specials ==> Special(v) && v in env && v != text
    ensures FirstShort(specials, text).Some? ==> FirstShort(specials, text).value in env
    ensures ParseSpecials(env, specials, text)
         == (match FirstShort(specials, text) case None => None case Some(g) => Some(env[g]))
  {
    if |specials| > 0 {
      assert specials[0] in specials;
      SpecialsByShort(env, specials[1..], text);
    }
  }

  /** Names have the prefix, texts do not. */
  lemma TextIsNoName(f: string, g: string)
    requires Named(f) && Named(g)
    ensures g != Sanitize(f)
  {
    TextHasNoPrefix(f);
    AtFront(g, PREFIX);
  }

  /** The name that answers to the printed text of f. */
  function Answer(values: seq<string>, f: string): Option<string>
    requires forall v :: v in Specials(values) ==> Special(v)
  {
    if Special(f) then FirstShort(Specials(values), Sanitize(f)) else Some(PREFIX + Sanitize(f))
  }

  lemma SpecialsAreSpecial(values: seq<string>)
    ensures forall v :: v in Specials(values) ==> Special(v) && v in values
  {
    forall v | v in Specials(values) ensures Special(v) && v in values { SpecialsAre(values, v); }
  }

  /**
   What parsing makes of a printed text, with nothing assumed about how often the three words occur:
   the name that answers decides, and without one the text is unknown.
   */
  lemma ReadBackExactly(env: Enum, values: seq<string>, i: nat)
    requires Undef(values).Some? && Compiles(env, Generated(values)) && Picked(env, values, i)
    requires forall v :: v in values ==> Named(v)
    ensures Print(env, Texts(values), env[values[i]]) == Some(Sanitize(values[i]))
    ensures forall v :: v in Specials(values) ==> Special(v)
    ensures Answer(values, values[i]).Some? ==> Answer(values, values[i]).value in env
    ensures Parse(env, Generated(values), Sanitize(values[i]))
         == (match Answer(values, values[i]) case None => Unknown(env[Undef(values).value]) case Some(g) => Found(env[g]))
  {
    var f := values[i];
    PrintIs(env, values, i);
    SpecialsAreSpecial(values);
    if Special(f) {
      TextWithin(f);
      TextHasNoPrefix(f);
      NoCase(env, values, Sanitize(f));
      forall g | g in Specials(values) ensures g != Sanitize(f) { TextIsNoName(f, g); }
      SpecialsByShort(env, Specials(values), Sanitize(f));
    } else {
      ParseRegular(env, values, f);
    }
  }

  /** values[i] is the name the printer picks: the first one listed with its value. */
  ghost predicate Picked(env: Enum, values: seq<string>, i: nat) {
    && (forall v :: v in values ==> v in env)
    && i < |values| && forall k :: 0 <= k < i ==> env[values[k]] != env[values[i]]
  }

  /**
   What parsing makes of the printed text, for any enum whose parser compiles: the text of a name
   without the three words is read as "dnnl_" and that text, and the text of any other name is read
   back exactly when it is that name's short word.
   */
  lemma ReadBack(env: Enum, values: seq<string>, i: nat)
    requires WellFormed(values) && Undef(values).Some? && Compiles(env, Generated(values)) && Picked(env, values, i)
    requires Sanitize(values[i]) == "last" ==> AtMostOne(values, "last")
    ensures Print(env, Texts(values), env[values[i]]) == Some(Sanitize(values[i]))
    ensures !Special(values[i]) ==> PREFIX + Sanitize(values[i]) in env
    ensures Parse(env, Generated(values), Sanitize(values[i]))
      == if !Special(values[i]) then Found(env[PREFIX + Sanitize(values[i])])
         else if Short(values[i]) == Sanitize(values[i]) then Found(env[values[i]])
         else Unknown(env[Undef(values).value])
  {
    PrintIs(env, values, i);
    if Special(values[i]) {
      ParseSpecial(env, values, values[i]);
    } else {
      ParseRegular(env, values, values[i]);
    }
  }

  /** So printing and parsing returns the value exactly if the name that answers has that value, for every enum whose parser compiles. */
  lemma RoundTripExactly(env: Enum, values: seq<string>, i: nat)
    requires Undef(values).Some? && Compiles(env, Generated(values)) && Picked(env, values, i)
    requires forall v :: v in values ==> Named(v)
    ensures forall v :: v in Specials(values) ==> Special(v)
    ensures var x, g := env[values[i]], Answer(values, values[i]);
      && Print(env, Texts(values), x) == Some(Sanitize(values[i])) && (g.Some? ==> g.value in env)
      && (Parse(env, Generated(values), Sanitize(values[i])) == Found(x) <==> g.Some? && env[g.value] == x)
  {
    ReadBackExactly(env, values, i);
  }

  /** The name prints as one of the three words, or as something the CASE lines know. */
  predicate Readable(f: string) {
    Special(f) ==> Short(f) == Sanitize(f)
  }

  lemma PlainTexts(f: string)
    requires Named(f) && !Overstripped(f)
    ensures !Special(f) ==> PREFIX + Sanitize(f) == f
    ensures Sanitize(f) == "last" ==> f == "dnnl_last"
  {
    SanitizeStrips(f);
    assert f == PREFIX + f[5..];
  }

  /**
   Printing a listed value and parsing the text returns the value, whichever alias was meant,
   exactly when the printed name is readable.
   */
  lemma RoundTrip(env: Enum, values: seq<string>, i: nat)
    requires WellFormed(values) && Undef(values).Some? && Picked(env, values, i)
    requires forall v :: v in values ==> !Overstripped(v)
    requires values[i] == "dnnl_last" ==> AtMostOne(values, "last")
    ensures Compiles(env, Generated(values))
    ensures Print(env, Texts(values), env[values[i]]) == Some(Sanitize(values[i]))
    ensures Parse(env, Generated(values), Sanitize(values[i])) == Found(env[values[i]]) <==> Readable(values[i])
  {
    CompilesExactly(env, values);
    PlainTexts(values[i]);
    ReadBack(env, values, i);
  }

  /** Which names are readable, in terms of the words they contain. */
  lemma ReadableNames(f: string)
    requires Named(f) && !Overstripped(f)
    ensures !Contains(f, "last") && !(Contains(f, "any") && Contains(f, "undef")) ==> Readable(f)
    ensures Contains(f, "last") && !Contains(f, "any") && !Contains(f, "undef") ==> (Readable(f) <==> f == "dnnl_last")
  {
    if Special(f) { ShortOccurs(f); }
    PlainTexts(f);
    if Contains(f, "last") && !Contains(f, "any") && !Contains(f, "undef") && f == "dnnl_last" { SanitizeStrips(f); }
  }

  /** Some CASE line is for this name. */
  ghost predicate HasCase(values: seq<string>, v: string) {
    exists u :: u in values && !Special(u) && PREFIX + Sanitize(u) == v
  }

  lemma CasesForName(env: Enum, values: seq<string>, v: string)
    requires Undef(values).Some? && Compiles(env, Generated(values))
    requires forall v :: v in values ==> Named(v) && v in env
    requires v in values
    ensures ParseCases(env, Cases(values), v) == if HasCase(values, v) then Some(env[v]) else None
  {
    forall c | c in Cases(values) ensures CaseMatches(c, v) <==> PREFIX + c == v {
      CasesAre(values, c);
      var u :| u in values && !Special(u) && Sanitize(u) == c;
      TextIsNoName(u, v);
    }
    CasesAgree(env, Cases(values), v, env[v]);
    if HasCase(values, v) {
      var u :| u in values && !Special(u) && PREFIX + Sanitize(u) == v;
      CasesAre(values, Sanitize(u));
      assert CaseMatches(Sanitize(u), v);
    } else if c :| c in Cases(values) && CaseMatches(c, v) {
      CasesAre(values, c);
      assert false;
    }
  }

  /** The full name of a listed value parses to that value exactly if it has one of the three words or a CASE line; else it is unknown. */
  lemma FullNamesExactly(env: Enum, values: seq<string>, v: string)
    requires Undef(values).Some? && Compiles(env, Generated(values))
    requires forall v :: v in values ==> Named(v) && v in env
    requires v in values
    ensures Parse(env, Generated(values), v)
         == if Special(v) || HasCase(values, v) then Found(env[v]) else Unknown(env[Undef(values).value])
  {
    CasesForName(env, values, v);
    if Special(v) {
      SpecialFullName(env, values, v);
    } else {
      forall g | g in Specials(values) ensures !SpecialMatches(g, v) {
        SpecialsAre(values, g);
        NamesAreNotShort(g, v);
      }
      SpecialsAgree(env, Specials(values), v, 0);
    }
  }

  lemma NamesAreNotShort(g: string, v: string)
    requires Special(g) && Named(v)
    ensures Short(g) != v
  {
    ShortOccurs(g);
    ShortTexts();
    AtFront(v, PREFIX);
  }

  /** Without overstripped names every full name parses to its value. */
  lemma FullNames(env: Enum, values: seq<string>, v: string)
    requires forall v :: v in values ==> Named(v) && !Overstripped(v) && v in env
    requires Undef(values).Some? && v in values
    ensures Compiles(env, Generated(values))
    ensures Parse(env, Generated(values), v) == Found(env[v])
  {
    CompilesExactly(env, values);
    PlainTexts(v);
    FullNamesExactly(env, values, v);
  }

  lemma SpecialFullName(env: Enum, values: seq<string>, v: string)
    requires forall v :: v in values ==> Named(v)
    requires Undef(values).Some? && Compiles(env, Generated(values)) && v in values && Special(v) && v in env
    ensures ParseSpecials(env, Specials(values), v) == Some(env[v])
  {
    forall g | g in Specials(values) ensures SpecialMatches(g, v) <==> g == v {
      SpecialsAre(values, g);
      ShortOccurs(g);
    }
    SpecialsAre(values, v);
    SpecialsAgree(env, Specials(values), v, env[v]);
  }

  /** The strings the parser knows: texts and full names of the CASE lines, short words and full names of the others. */
  lemma KnownStrings(env: Enum, values: seq<string>, str: string)
    requires Undef(values).Some? && Compiles(env, Generated(values))
    ensures Parse(env, Generated(values), str).Found? <==>
      || (exists v :: v in values && !Special(v) && (str == Sanitize(v) || str == PREFIX + Sanitize(v)))
      || (exists v :: v in values && Special(v) && (str == Short(v) || str == v))
  {
    CasesFind(env, Cases(values), str);
    SpecialsFind(env, Specials(values), str);
    SpecialsAreSpecial(values);
    if v :| v in values && !Special(v) && (str == Sanitize(v) || str == PREFIX + Sanitize(v)) {
      CasesAre(values, Sanitize(v));
      assert CaseMatches(Sanitize(v), str);
    }
    if v :| v in values && Special(v) && (str == Short(v) || str == v) {
      SpecialsAre(values, v);
      assert SpecialMatches(v, str);
    }
    if c :| c in Cases(values) && CaseMatches(c, str) {
      CasesAre(values, c);
    }
  }

  lemma {:induction false} CasesFind(env: Enum, cases: seq<string>, str: string)
    requires forall i :: 0 <= i < |cases| ==> PREFIX + cases[i] in env
    ensures ParseCases(env, cases, str).Some? <==> exists c :: c in cases && CaseMatches(c, str)
  {
    if |cases| > 0 {
      assert cases[0] in cases;
      assert forall c :: c in cases <==> c == cases[0] || c in cases[1..];
      CasesFind(env, cases[1..], str);
    }
  }

  lemma {:induction false} SpecialsFind(env: Enum, specials: seq<string>, str: string)
    requires forall i :: 0 <= i < |specials| ==> specials[i] in env && Special(specials[i])
    ensures ParseSpecials(env, specials, str).Some? <==> exists v :: v in specials && SpecialMatches(v, str)
  {
    if |specials| > 0 {
      assert specials[0] in specials;
      assert forall v :: v in specials <==> v == specials[0] || v in specials[1..];
      SpecialsFind(env, specials[1..], str);
    }
  }

  /** The parser returns values of the enum only, also when it gives up. */
  lemma ParsedIsListed(env: Enum, values: seq<string>, str: string) returns (i: nat)
    requires forall v :: v in values ==> Named(v) && v in env
    requires forall v :: v in values && !Special(v) ==> PREFIX + Sanitize(v) in values
    requires Undef(values).Some?
    ensures Compiles(env, Generated(values)) && Picked(env, values, i)
    ensures env[values[i]] == Value(Parse(env, Generated(values), str))
  {
    forall v | v in values && !Special(v) ensures CaseExists(env, v) { CaseName(v); }
    CompilesExactly(env, values);
    var x := Value(Parse(env, Generated(values), str));
    UndefIs(values);
    CasesFrom(env, Cases(values), str);
    SpecialsFrom(env, Specials(values), str);
    if c :| c in Cases(values) && ParseCases(env, Cases(values), str) == Some(env[PREFIX + c]) {
      CasesAre(values, c);
      i := FirstWith(env, values, PREFIX + c);
    } else if v :| v in Specials(values) && ParseSpecials(env, Specials(values), str) == Some(env[v]) {
      SpecialsAre(values, v);
      i := FirstWith(env, values, v);
    } else {
      i := FirstWith(env, values, Undef(values).value);
    }
  }

  function Value(p: Parsed): int {
    match p case Found(x) => x case Unknown(x) => x
  }

  lemma {:induction false} CasesFrom(env: Enum, cases: seq<string>, str: string)
    requires forall i :: 0 <= i < |cases| ==> PREFIX + cases[i] in env
    ensures ParseCases(env, cases, str).Some? ==> exists c :: c in cases && ParseCases(env, cases, str) == Some(env[PREFIX + c])
  {
    if |cases| > 0 {
      assert cases[0] in cases;
      CasesFrom(env, cases[1..], str);
    }
  }

  lemma {:induction false} SpecialsFrom(env: Enum, specials: seq<string>, str: string)
    requires forall i :: 0 <= i < |specials| ==> specials[i] in env && Special(specials[i])
    ensures ParseSpecials(env, specials, str).Some?
      ==> exists v :: v in specials && ParseSpecials(env, specials, str) == Some(env[v])
  {
    if |specials| > 0 {
      assert specials[0] in specials;
      SpecialsFrom(env, specials[1..], str);
    }
  }

  lemma FirstWith(env: Enum, values: seq<string>, v: string) returns (i: nat)
    requires v in values && forall v :: v in values ==> v in env
    ensures Picked(env, values, i) && env[values[i]] == env[v]
  {
    i := 0;
    while env[values[i]] != env[v]
      invariant i < |values| && forall k :: 0 <= k < i ==> env[values[k]] != env[v]
      invariant exists j :: i <= j < |values| && values[j] == v
      decreases |values| - i
    {
      i := i + 1;
    }
  }

  /** Print after parse: the text a string stands for; strings the parser does not know stand for the undefined value. */
  ghost function Normal(env: Enum, values: seq<string>, str: string): Option<string>
    requires Undef(values).Some? && Compiles(env, Generated(values)) && forall v :: v in values ==> v in env
  {
    Print(env, Texts(values), Value(Parse(env, Generated(values), str)))
  }

  /** Names with one of the three words have texts of their own. */
  lemma TextsDiffer(values: seq<string>, f: string, g: string)
    requires WellFormed(values) && f in values && g in values && !Overstripped(f) && !Overstripped(g)
    requires Special(f) && Sanitize(f) == Sanitize(g)
    ensures f == g
  {
    var i :| 0 <= i < |values| && values[i] == f;
    var j :| 0 <= j < |values| && values[j] == g;
    TextWithin(f);
    TextWithin(g);
    SanitizeStrips(f);
    SanitizeStrips(g);
    assert f == PREFIX + f[5..] && g == PREFIX + g[5..];
    assert Sanitize(f) in {"undef", "any"} ==> AtMostOne(values, Sanitize(f));
  }

  /**
   Print after parse always answers, and a second time changes nothing exactly when the name it
   printed is readable or stands for the undefined value.
   */
  lemma NormalIsIdempotent(env: Enum, values: seq<string>, str: string) returns (i: nat)
    requires WellFormed(values) && Undef(values).Some? && ("dnnl_last" in values ==> AtMostOne(values, "last"))
    requires forall v :: v in values ==> v in env && !Overstripped(v)
    ensures Compiles(env, Generated(values)) && Picked(env, values, i)
    ensures env[values[i]] == Value(Parse(env, Generated(values), str))
    ensures Normal(env, values, str) == Some(Sanitize(values[i]))
    ensures Undef(values).value in env
    ensures Normal(env, values, Sanitize(values[i])) == Normal(env, values, str)
      <==> Readable(values[i]) || env[values[i]] == env[Undef(values).value]
  {
    PlainCasesListed(values);
    i := ParsedIsListed(env, values, str);
    RoundTrip(env, values, i);
    if !Readable(values[i]) {
      UnreadableIsUndef(env, values, i);
    }
  }

  lemma PlainCasesListed(values: seq<string>)
    requires forall v :: v in values ==> Named(v) && !Overstripped(v)
    ensures forall v :: v in values && !Special(v) ==> PREFIX + Sanitize(v) in values
  {
    forall v | v in values && !Special(v) ensures PREFIX + Sanitize(v) in values { PlainTexts(v); }
  }

  /** The text of an unreadable name normalises to the text of the undefined value, which is a different text unless the two are aliases. */
  lemma UnreadableIsUndef(env: Enum, values: seq<string>, i: nat)
    requires WellFormed(values) && Undef(values).Some? && Picked(env, values, i) && !Readable(values[i])
    requires forall v :: v in values ==> !Overstripped(v)
    requires values[i] == "dnnl_last" ==> AtMostOne(values, "last")
    ensures Compiles(env, Generated(values)) && Undef(values).value in env
    ensures Normal(env, values, Sanitize(values[i])) == Some(Sanitize(values[i])) <==> env[values[i]] == env[Undef(values).value]
  {
    CompilesExactly(env, values);
    PlainTexts(values[i]);
    ReadBack(env, values, i);
    UndefIs(values);
    var j := FirstWith(env, values, Undef(values).value);
    PrintIs(env, values, j);
    if Sanitize(values[j]) == Sanitize(values[i]) { TextsDiffer(values, values[i], values[j]); }
  }

  ghost predicate Idempotent(env: Enum, values: seq<string>)
    requires Undef(values).Some? && Compiles(env, Generated(values)) && forall v :: v in values ==> v in env
  {
    forall str :: Normal(env, values, str).Some? && Normal(env, values, Normal(env, values, str).value) == Normal(env, values, str)
  }

  /** For a whole enum: print after parse is idempotent exactly if every name the printer can pick is readable or an alias of the undefined value. */
  lemma IdempotentExactly(env: Enum, values: seq<string>)
    requires WellFormed(values) && Undef(values).Some? && ("dnnl_last" in values ==> AtMostOne(values, "last"))
    requires forall v :: v in values ==> v in env && !Overstripped(v)
    ensures Compiles(env, Generated(values)) && Undef(values).value in env
    ensures Idempotent(env, values)
      <==> forall i: nat :: Picked(env, values, i) ==> Readable(values[i]) || env[values[i]] == env[Undef(values).value]
  {
    CompilesExactly(env, values);
    UndefIs(values);
    if Idempotent(env, values) {
      forall i: nat | Picked(env, values, i) ensures Readable(values[i]) || env[values[i]] == env[Undef(values).value] {
        FullNames(env, values, values[i]);
        var j := NormalIsIdempotent(env, values, values[i]);
        assert i == j;
      }
    } else {
      var str :| !(Normal(env, values, str).Some? && Normal(env, values, Normal(env, values, str).value) == Normal(env, values, str));
      var i := NormalIsIdempotent(env, values, str);
    }
  }

  /** A name with the word last in it, other than "dnnl_last", prints as a text that the parser does not know. */
  lemma SentinelIsLost(env: Enum, values: seq<string>, i: nat)
    requires WellFormed(values) && Undef(values).Some? && Picked(env, values, i)
    requires forall v :: v in values ==> !Overstripped(v)
    requires Contains(values[i], "last") && !Contains(values[i], "any") && !Contains(values[i], "undef")
    requires values[i] != "dnnl_last"
    ensures Compiles(env, Generated(values)) && PREFIX <= values[i]
    ensures Print(env, Texts(values), env[values[i]]) == Some(Stripped(values[i]))
    ensures Parse(env, Generated(values), Stripped(values[i])) == Unknown(env[Undef(values).value])
  {
    CompilesExactly(env, values);
    SanitizeStrips(values[i]);
    PlainTexts(values[i]);
    ReadableNames(values[i]);
    ReadBack(env, values, i);
  }

  lemma NoLetter(s: string, sub: string, k: nat)
    requires k < |sub| && sub[k] !in s
    ensures !Contains(s, sub)
  {
    forall i: nat ensures !Occurs(s, i, sub) {
      if Occurs(s, i, sub) { OccursAt(s, i, sub, k); }
    }
  }

  const TAG_UNDEF := "dnnl_format_tag_undef"
  const TAG_LAST := "dnnl_format_tag_last"

  lemma TagsAreNamed()
    ensures Named(TAG_UNDEF) && Named(TAG_LAST)
  {
    assert TAG_UNDEF[5..] == "format_tag_undef" && TAG_LAST[5..] == "format_tag_last";
    NoLetter("format_tag_undef", PREFIX, 3);
    NoLetter("format_tag_last", PREFIX, 0);
  }

  lemma TagsAreNotOverstripped()
    ensures !Overstripped(TAG_UNDEF) && !Overstripped(TAG_LAST)
  {
    assert TAG_UNDEF[5] != SCRATCHPAD[5] && TAG_UNDEF[12] != FORMAT_KIND[12];
    assert TAG_LAST[5] != SCRATCHPAD[5] && TAG_LAST[12] != FORMAT_KIND[12];
  }

  lemma WordsOfTagUndef()
    ensures Contains(TAG_UNDEF, "undef") && !Contains(TAG_UNDEF, "any") && !Contains(TAG_UNDEF, "last")
  {
    assert Occurs(TAG_UNDEF, 16, "undef");
    NoLetter(TAG_UNDEF, "any", 2);
    NoLetter(TAG_UNDEF, "last", 2);
  }

  lemma WordsOfTagLast()
    ensures !Contains(TAG_LAST, "undef") && !Contains(TAG_LAST, "any") && Contains(TAG_LAST, "last")
  {
    assert Occurs(TAG_LAST, 16, "last");
    NoLetter(TAG_LAST, "undef", 0);
    NoLetter(TAG_LAST, "any", 2);
  }

  /** The sentinel of the format tags is such a name: its text comes back as the undefined tag. */
  lemma FormatTagLast()
    ensures var values, env := [TAG_UNDEF, TAG_LAST], map[TAG_UNDEF := 0, TAG_LAST := 5];
      && Undef(values).Some? && Compiles(env, Generated(values))
      && Print(env, Texts(values), 5) == Some("format_tag_last")
      && Parse(env, Generated(values), "format_tag_last") == Unknown(0)
  {
    var values, env: Enum := [TAG_UNDEF, TAG_LAST], map[TAG_UNDEF := 0, TAG_LAST := 5];
    TagsAreNamed();
    TagsAreNotOverstripped();
    WordsOfTagUndef();
    WordsOfTagLast();
    UndefIs(values);
    assert values[0] == TAG_UNDEF && values[1] == TAG_LAST;
    assert TAG_LAST[5..] == "format_tag_last";
    SentinelIsLost(env, values, 1);
  }
}
