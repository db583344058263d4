/** Field extraction: turning a declared field (a literal, one extraction
    option, or a list of options) into a value read from the rendered page. */
module Data {
  import opened Wrappers

  /** A scraped or declared scalar: a JavaScript string or number. */
  datatype Value = Str(s: string) | Num(x: real)

  datatype DataType = StringType | NumberType

  /** Where a value is read: the element `selector` designates, optionally
      narrowed by a regular expression, then wrapped in `pre` and `post`. */
  datatype DataOptions = DataOptions(
    pre: Option<string>,
    post: Option<string>,
    selector: string,
    regex: Option<string>,
    regFlag: Option<string>)

  /** Several options whose values are combined with `+`. */
  datatype DataExOptions = DataExOptions(dataType: Option<DataType>, options: seq<DataOptions>)

  /** A declared field: a literal, a single option, or a list of options. */
  datatype Field = Literal(v: Value) | Single(opt: DataOptions) | Multi(ex: DataExOptions)

  datatype DataEntryOptions = DataEntryOptions(
    name: Field,
    value: Field,
    unit: Option<Field>,
    year: Option<Field>,
    dataType: Option<DataType>)

  /** One output record; `year` and `unit` are absent keys when None. */
  datatype DataEntry = DataEntry(name: Value, value: Value, year: Option<Value>, unit: Option<Value>)

  /** The one failure the model represents: reducing an empty list without
      an initial value. */
  datatype Error = EmptyReduce

  /** The element a selector designates on the rendered page. */
  datatype Element = Element(innerText: string, childCount: nat)

  /** The rendered page, reduced to what selectors read from it: for every
      selector that matches, its first matching element. */
  datatype Page = Page(elements: map<string, Element>)

  /** A regular-expression match array: the whole match, then one entry per
      capture group, each possibly undefined. */
  type Groups = s: seq<Option<string>> | |s| > 0 witness [None]

  /** The JavaScript built-ins the extraction code leans on and that are not
      modelled here: running a regular expression with its flags, `parseFloat`,
      and `Number.prototype.toString`. */
  datatype Primitives = Primitives(
    exec: (string, Option<string>, string) -> Option<Groups>,
    parseFloat: string -> real,
    numberText: real -> string)

  // ---------------------------------------------------------------------------
  // Strings

  /** The characters String.prototype.trim removes: white space and line
      terminators (the WhiteSpace and LineTerminator productions of ECMA-262). */
  predicate IsSpace(c: char) {
    c == ' ' || c == '\t' || c == '\n' || c == '\r' || c == '\U{000B}' || c == '\U{000C}' ||
    c == '\U{00A0}' || c == '\U{1680}' || ('\U{2000}' <= c <= '\U{200A}') ||
    c == '\U{2028}' || c == '\U{2029}' || c == '\U{202F}' || c == '\U{205F}' ||
    c == '\U{3000}' || c == '\U{FEFF}'
  }

  predicate AllSpace(s: string) {
    forall i :: 0 <= i < |s| ==> IsSpace(s[i])
  }

  /** Neither end of `s` is white space. */
  predicate IsTrimmed(s: string) {
    s == [] || (!IsSpace(s[0]) && !IsSpace(s[|s| - 1]))
  }

  function TrimStart(s: string): (r: string)
    ensures |r| <= |s| && r == s[|s| - |r|..]
    ensures AllSpace(s[..|s| - |r|])
    ensures r == [] || !IsSpace(r[0])
  {
    if s != [] && IsSpace(s[0]) then TrimStart(s[1..]) else s
  }

  function TrimEnd(s: string): (r: string)
    ensures |r| <= |s| && r == s[..|r|]
    ensures AllSpace(s[|r|..])
    ensures r == [] || !IsSpace(r[|r| - 1])
  {
    if s != [] && IsSpace(s[|s| - 1]) then TrimEnd(s[..|s| - 1]) else s
  }

  /** String.prototype.trim. */
  function Trim(s: string): (r: string)
    ensures IsTrimmed(r)
    ensures |r| <= |s|
  {
    TrimEnd(TrimStart(s))
  }

  lemma {:induction false} TrimStartPadded(w: string, core: string)
    requires AllSpace(w)
    requires core == [] || !IsSpace(core[0])
    ensures TrimStart(w + core) == core
  {
    if w == [] {
      assert w + core == core;
    } else {
      assert (w + core)[1..] == w[1..] + core;
      TrimStartPadded(w[1..], core);
    }
  }

  lemma {:induction false} TrimEndPadded(core: string, w: string)
    requires AllSpace(w)
    requires core == [] || !IsSpace(core[|core| - 1])
    ensures TrimEnd(core + w) == core
  {
    if w == [] {
      assert core + w == core;
    } else {
      assert (core + w)[..|core + w| - 1] == core + w[..|w| - 1];
      TrimEndPadded(core, w[..|w| - 1]);
    }
  }

  /** Trim removes exactly the white space around a trimmed core: every
      string is such a padding, so this pins Trim down completely. */
  lemma TrimPadded(w1: string, core: string, w2: string)
    requires AllSpace(w1) && AllSpace(w2) && IsTrimmed(core)
    ensures Trim(w1 + core + w2) == core
  {
    assert w1 + core + w2 == w1 + (core + w2);
    if core == [] {
      assert w1 + core + w2 == w1 + w2;
      AllSpaceAppend(w1, w2);
      TrimStartPadded(w1 + w2, []);
      assert w1 + w2 + [] == w1 + w2;
      assert TrimStart(w1 + w2) == [];
    } else {
      TrimStartPadded(w1, core + w2);
      TrimEndPadded(core, w2);
    }
  }

  lemma AllSpaceAppend(a: string, b: string)
    requires AllSpace(a) && AllSpace(b)
    ensures AllSpace(a + b)
  {
  }

  /** Every string is its trimmed core padded with white space. */
  lemma TrimSplit(s: string)
    ensures exists i, j :: 0 <= i <= j <= |s| && s[i..j] == Trim(s) && AllSpace(s[..i]) && AllSpace(s[j..])
  {
    var t := TrimStart(s);
    var i := |s| - |t|;
    var j := i + |Trim(s)|;
    assert s[i..j] == Trim(s);
    assert s[j..] == t[|Trim(s)|..];
  }

  lemma TrimIdempotent(s: string)
    ensures Trim(Trim(s)) == Trim(s)
  {
    TrimPadded([], Trim(s), []);
    assert [] + Trim(s) + [] == Trim(s);
  }

  /** The global comma replacement: drops every comma and keeps every other
      character in order. */
  function StripCommas(s: string): (r: string)
    ensures |r| <= |s|
    ensures forall i :: 0 <= i < |r| ==> r[i] != ','
    ensures forall c :: c != ',' ==> multiset(r)[c] == multiset(s)[c]
  {
    if s == [] then []
    else
      assert s == [s[0]] + s[1..];
      (if s[0] == ',' then [] else [s[0]]) + StripCommas(s[1..])
  }

  lemma {:induction false} StripCommasAppend(a: string, b: string)
    ensures StripCommas(a + b) == StripCommas(a) + StripCommas(b)
  {
    if a != [] {
      assert (a + b)[1..] == a[1..] + b;
      StripCommasAppend(a[1..], b);
    } else {
      assert a + b == b;
    }
  }

  lemma {:induction false} StripCommasWithoutCommas(s: string)
    requires forall i :: 0 <= i < |s| ==> s[i] != ','
    ensures StripCommas(s) == s
  {
    if s != [] {
      StripCommasWithoutCommas(s[1..]);
    }
  }

  // ---------------------------------------------------------------------------
  // Values

  /** The text of a value: a string as it is, a number as it prints. */
  function Text(v: Value, prims: Primitives): string {
    match v
    case Str(s) => s
    case Num(x) => prims.numberText(x)
  }

  /** JavaScript `+` on two values: concatenation as soon as one side is a
      string, numeric addition otherwise. */
  function Plus(a: Value, b: Value, prims: Primitives): (r: Value)
    ensures a.Str? && b.Str? ==> r == Str(a.s + b.s)
    ensures a.Num? && b.Num? ==> r == Num(a.x + b.x)
  {
    if a.Num? && b.Num? then Num(a.x + b.x) else Str(Text(a, prims) + Text(b, prims))
  }

  /** `toData`: coerces to the declared type, 'string' when none is declared.
      Strings are trimmed; numbers are parsed once the commas are removed. */
  function ToData(v: Value, t: Option<DataType>, prims: Primitives): (r: Value)
    ensures t != Some(NumberType) ==> r.Str? && IsTrimmed(r.s)
    ensures t != Some(NumberType) && v.Str? && IsTrimmed(v.s) ==> r == v
    ensures t == Some(NumberType) ==> r.Num?
    ensures t != Some(NumberType) ==> r == Str(Trim(Text(v, prims)))
    ensures t == Some(NumberType) ==> r == Num(prims.parseFloat(StripCommas(Text(v, prims))))
  {
    if t == Some(NumberType) then
      Num(prims.parseFloat(StripCommas(Text(v, prims))))
    else
      var r := Str(Trim(Text(v, prims)));
      if v.Str? && IsTrimmed(v.s) then
        TrimPadded([], v.s, []);
        assert [] + v.s + [] == v.s;
        r
      else r
  }

  /** Coercing to a string twice is coercing once. */
  lemma ToDataStringIdempotent(v: Value, t: Option<DataType>, prims: Primitives)
    requires t != Some(NumberType)
    ensures ToData(ToData(v, t, prims), t, prims) == ToData(v, t, prims)
  {
  }

  // ---------------------------------------------------------------------------
  // Reading the page

  /** `getText`: the element's text, or "" when nothing matches. */
  function GetText(page: Page, selector: string): (r: string)
    ensures selector !in page.elements ==> r == ""
    ensures selector in page.elements ==> r == page.elements[selector].innerText
  {
    if selector in page.elements then page.elements[selector].innerText else ""
  }

  /** `getNumChild`: the element's number of children, or 0 when nothing matches. */
  function GetNumChild(page: Page, selector: string): (r: nat)
    ensures selector !in page.elements ==> r == 0
    ensures selector in page.elements ==> r == page.elements[selector].childCount
  {
    if selector in page.elements then page.elements[selector].childCount else 0
  }

  /** The last entry of the match array, or "" when there is no match or
      that entry is missing or empty. */
  function LastGroup(m: Option<Groups>): (r: string)
    ensures m.None? ==> r == ""
    ensures m.Some? && m.value[|m.value| - 1].Some? ==> r == m.value[|m.value| - 1].value
    ensures m.Some? && m.value[|m.value| - 1].None? ==> r == ""
  {
    match m
    case None => ""
    case Some(g) =>
      match g[|g| - 1]
      case None => ""
      case Some(s) => if s != "" then s else ""
  }

  /** `!opt.regex` is false: a regular expression is given and non-empty. */
  predicate HasRegex(opt: DataOptions) {
    opt.regex.Some? && opt.regex.value != ""
  }

  /** The text an option reads before wrapping: the element's text, narrowed
      by the regular expression when there is one. */
  function Extracted(page: Page, opt: DataOptions, prims: Primitives): (r: string)
    ensures !HasRegex(opt) ==> r == GetText(page, opt.selector)
    ensures HasRegex(opt) && prims.exec(opt.regex.value, opt.regFlag, GetText(page, opt.selector)).None? ==> r == ""
    ensures HasRegex(opt) ==> r == LastGroup(prims.exec(opt.regex.value, opt.regFlag, GetText(page, opt.selector)))
  {
    var text := GetText(page, opt.selector);
    if HasRegex(opt) then LastGroup(prims.exec(opt.regex.value, opt.regFlag, text)) else text
  }

  /** `getDataFromOption`: `pre + extracted + post`, coerced to `dataType`. */
  function GetDataFromOption(page: Page, opt: DataOptions, dataType: Option<DataType>, prims: Primitives): (r: Value)
    ensures dataType != Some(NumberType) ==>
              r == Str(Trim(opt.pre.GetOr("") + Extracted(page, opt, prims) + opt.post.GetOr("")))
    ensures dataType == Some(NumberType) ==>
              r == Num(prims.parseFloat(StripCommas(opt.pre.GetOr("") + Extracted(page, opt, prims) + opt.post.GetOr(""))))
  {
    var wrapped := opt.pre.GetOr("") + Extracted(page, opt, prims) + opt.post.GetOr("");
    ToData(Str(wrapped), dataType, prims)
  }

  /** Without a regular expression the element's text is used unchanged. */
  lemma NoRegexUsesText(page: Page, opt: DataOptions, prims: Primitives)
    requires !HasRegex(opt)
    ensures Extracted(page, opt, prims) == GetText(page, opt.selector)
  {
  }

  /** With a regular expression that does not match, the value is the
      wrapping alone, coerced to the requested type. */
  lemma NoMatchIsEmpty(page: Page, opt: DataOptions, dataType: Option<DataType>, prims: Primitives)
    requires HasRegex(opt)
    requires prims.exec(opt.regex.value, opt.regFlag, GetText(page, opt.selector)).None?
    ensures dataType != Some(NumberType) ==>
              GetDataFromOption(page, opt, dataType, prims) == Str(Trim(opt.pre.GetOr("") + opt.post.GetOr("")))
    ensures dataType == Some(NumberType) ==>
              GetDataFromOption(page, opt, dataType, prims) == Num(prims.parseFloat(StripCommas(opt.pre.GetOr("") + opt.post.GetOr(""))))
  {
    assert Extracted(page, opt, prims) == "";
    assert opt.pre.GetOr("") + "" == opt.pre.GetOr("");
  }

  // ---------------------------------------------------------------------------
  // Combining options

  /** The reduce without an initial value over `+`: a left fold, which
      needs at least one value. The sum is a number exactly when every
      value is one; a single string turns the whole sum into a string. */
  function SumAll(vs: seq<Value>, prims: Primitives): (r: Value)
    requires |vs| > 0
    ensures |vs| == 1 ==> r == vs[0]
    ensures r.Num? <==> forall i :: 0 <= i < |vs| ==> vs[i].Num?
  {
    if |vs| == 1 then vs[0] else Plus(SumAll(vs[..|vs| - 1], prims), vs[|vs| - 1], prims)
  }

  function ConcatTexts(vs: seq<Value>): string
    requires forall i :: 0 <= i < |vs| ==> vs[i].Str?
  {
    if vs == [] then "" else ConcatTexts(vs[..|vs| - 1]) + vs[|vs| - 1].s
  }

  function SumNumbers(vs: seq<Value>): real
    requires forall i :: 0 <= i < |vs| ==> vs[i].Num?
  {
    if vs == [] then 0.0 else SumNumbers(vs[..|vs| - 1]) + vs[|vs| - 1].x
  }

  /** Folding strings with `+` concatenates them. */
  lemma {:induction false} SumAllStrings(vs: seq<Value>, prims: Primitives)
    requires |vs| > 0
    requires forall i :: 0 <= i < |vs| ==> vs[i].Str?
    ensures SumAll(vs, prims) == Str(ConcatTexts(vs))
  {
    if |vs| > 1 {
      SumAllStrings(vs[..|vs| - 1], prims);
    } else {
      assert vs[..0] == [];
    }
  }

  /** Folding numbers with `+` adds them. */
  lemma {:induction false} SumAllNumbers(vs: seq<Value>, prims: Primitives)
    requires |vs| > 0
    requires forall i :: 0 <= i < |vs| ==> vs[i].Num?
    ensures SumAll(vs, prims) == Num(SumNumbers(vs))
  {
    if |vs| > 1 {
      SumAllNumbers(vs[..|vs| - 1], prims);
    } else {
      assert vs[..0] == [];
    }
  }

  /** The value of every option of a list, each coerced to the list's type. */
  function OptionValues(page: Page, ex: DataExOptions, prims: Primitives): (vs: seq<Value>)
    ensures |vs| == |ex.options|
    ensures forall i :: 0 <= i < |vs| ==> vs[i] == GetDataFromOption(page, ex.options[i], ex.dataType, prims)
  {
    seq(|ex.options|, i requires 0 <= i < |ex.options| => GetDataFromOption(page, ex.options[i], ex.dataType, prims))
  }

  /** `getDataEx`: the options' values combined with `+`, coerced once more.
      An empty option list fails like `reduce` without an initial value. */
  function GetDataEx(page: Page, ex: DataExOptions, prims: Primitives): (r: Result<Value, Error>)
    ensures r.Err? <==> ex.options == []
    ensures r.Ok? && ex.dataType != Some(NumberType) ==> r.value.Str? && IsTrimmed(r.value.s)
    ensures r.Ok? && ex.dataType == Some(NumberType) ==> r.value.Num?
  {
    if ex.options == [] then Err(EmptyReduce)
    else Ok(ToData(SumAll(OptionValues(page, ex, prims), prims), ex.dataType, prims))
  }

  /** For strings, the combined value is the concatenation of the trimmed
      parts, trimmed again. */
  lemma GetDataExStrings(page: Page, ex: DataExOptions, prims: Primitives)
    requires ex.options != [] && ex.dataType != Some(NumberType)
    ensures forall i :: 0 <= i < |ex.options| ==> OptionValues(page, ex, prims)[i].Str?
    ensures GetDataEx(page, ex, prims) == Ok(Str(Trim(ConcatTexts(OptionValues(page, ex, prims)))))
  {
    SumAllStrings(OptionValues(page, ex, prims), prims);
  }

  /** For numbers, the combined value is the sum of the parsed parts, passed
      through the number coercion once more. */
  lemma GetDataExNumbers(page: Page, ex: DataExOptions, prims: Primitives)
    requires ex.options != [] && ex.dataType == Some(NumberType)
    ensures forall i :: 0 <= i < |ex.options| ==> OptionValues(page, ex, prims)[i].Num?
    ensures var sum := SumNumbers(OptionValues(page, ex, prims));
            GetDataEx(page, ex, prims) == Ok(Num(prims.parseFloat(StripCommas(prims.numberText(sum)))))
  {
    SumAllNumbers(OptionValues(page, ex, prims), prims);
  }

  /** `getData`: a literal is returned as it is; a single option is treated
      as a one-option list carrying the caller's type. */
  function GetData(page: Page, f: Field, dataType: Option<DataType>, prims: Primitives): (r: Result<Value, Error>)
    ensures f.Literal? ==> r == Ok(f.v)
    ensures f.Single? ==> r == Ok(ToData(GetDataFromOption(page, f.opt, dataType, prims), dataType, prims))
    ensures f.Multi? ==> r == GetDataEx(page, f.ex, prims)
  {
    match f
    case Literal(v) => Ok(v)
    case Single(o) =>
      var r := GetDataEx(page, DataExOptions(dataType, [o]), prims);
      assert SumAll(OptionValues(page, DataExOptions(dataType, [o]), prims), prims)
          == GetDataFromOption(page, o, dataType, prims);
      r
    case Multi(ex) => GetDataEx(page, ex, prims)
  }

  /** A single string option yields exactly what the option reads: the
      second coercion changes nothing. */
  lemma GetDataSingleString(page: Page, o: DataOptions, dataType: Option<DataType>, prims: Primitives)
    requires dataType != Some(NumberType)
    ensures GetData(page, Single(o), dataType, prims) == Ok(GetDataFromOption(page, o, dataType, prims))
  {
  }

  /** JavaScript truthiness of a declared field: "" and 0 are falsy, options are objects. */
  predicate Declared(f: Option<Field>)
    ensures Declared(f) ==> f.Some?
    ensures f.Some? && !f.value.Literal? ==> Declared(f)
  {
    match f
    case None => false
    case Some(Literal(Str(s))) => s != ""
    case Some(Literal(Num(x))) => x != 0.0
    case Some(_) => true
  }

  /** Resolves an optional field as a string when it is declared. */
  function GetOptional(page: Page, f: Option<Field>, prims: Primitives): (r: Result<Option<Value>, Error>)
    ensures !Declared(f) ==> r == Ok(None)
    ensures Declared(f) ==> match GetData(page, f.value, Some(StringType), prims)
                              case Ok(v) => r == Ok(Some(v))
                              case Err(e) => r == Err(e)
  {
    if !Declared(f) then Ok(None)
    else
      match GetData(page, f.value, Some(StringType), prims)
      case Ok(v) => Ok(Some(v))
      case Err(e) => Err(e)
  }

  /** `getDataEntry`: resolves name as a string, value with the entry's type,
      and year and unit as strings only when declared; the first failure in
      that order fails the entry. */
  function GetDataEntry(page: Page, opt: DataEntryOptions, prims: Primitives): (r: Result<DataEntry, Error>)
    ensures r.Ok? <==> GetData(page, opt.name, Some(StringType), prims).Ok? &&
                       GetData(page, opt.value, opt.dataType, prims).Ok? &&
                       GetOptional(page, opt.year, prims).Ok? && GetOptional(page, opt.unit, prims).Ok?
    ensures r.Ok? ==> r.value.name == GetData(page, opt.name, Some(StringType), prims).value
    ensures r.Ok? ==> r.value.value == GetData(page, opt.value, opt.dataType, prims).value
    ensures r.Ok? ==> (r.value.year.Some? <==> Declared(opt.year))
    ensures r.Ok? ==> (r.value.unit.Some? <==> Declared(opt.unit))
    ensures r.Ok? && Declared(opt.year) ==> r.value.year.value == GetData(page, opt.year.value, Some(StringType), prims).value
    ensures r.Ok? && Declared(opt.unit) ==> r.value.unit.value == GetData(page, opt.unit.value, Some(StringType), prims).value
  {
    var name := GetData(page, opt.name, Some(StringType), prims);
    var value := GetData(page, opt.value, opt.dataType, prims);
    var year := GetOptional(page, opt.year, prims);
    var unit := GetOptional(page, opt.unit, prims);
    if name.Err? then Err(name.error)
    else if value.Err? then Err(value.error)
    else if year.Err? then Err(year.error)
    else if unit.Err? then Err(unit.error)
    else Ok(DataEntry(name.value, value.value, year.value, unit.value))
  }

  /** A name read through one option is a trimmed string. A list of options
      keeps its own declared type: the 'string' passed for names applies
      only to single options. */
  lemma EntryNameIsTrimmed(page: Page, opt: DataEntryOptions, prims: Primitives)
    requires opt.name.Single? || (opt.name.Multi? && opt.name.ex.dataType != Some(NumberType))
    requires GetDataEntry(page, opt, prims).Ok?
    ensures GetDataEntry(page, opt, prims).value.name.Str?
    ensures IsTrimmed(GetDataEntry(page, opt, prims).value.name.s)
  {
  }
}
