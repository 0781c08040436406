/**
 The option parser: tables of options and aliases, a map of values that starts
 with the defaults, and a loop over the arguments with one token of lookahead.
 A validator that calls std::stoi may throw, which ends the parse as a third
 outcome beside acceptance and rejection.
 */
module CommandLine {
  import opened Wrappers

  // ------------------------------------------------------------------
  // std::stoi

  predicate IsSpace(c: char) {
    c == ' ' || '\t' <= c <= '\r'
  }

  predicate IsDigit(c: char) {
    '0' <= c <= '9'
  }

  function SkipSpace(s: string): string {
    if s != "" && IsSpace(s[0]) then SkipSpace(s[1..]) else s
  }

  function LeadingDigits(s: string): string {
    if s != "" && IsDigit(s[0]) then [s[0]] + LeadingDigits(s[1..]) else ""
  }

  function Decimal(digits: string): nat
    requires forall c :: c in digits ==> IsDigit(c)
  {
    if digits == "" then 0
    else
      var init, last := digits[..|digits| - 1], digits[|digits| - 1];
      assert IsDigit(last) by { assert last in digits; }
      10 * Decimal(init) + (last as int - '0' as int)
  }

  lemma LeadingDigitsAreDigits(s: string)
    ensures forall c :: c in LeadingDigits(s) ==> IsDigit(c)
  {
  }

  /** Leading space, an optional sign, then at least one digit; what follows is ignored. None is a throw. */
  function Stoi(s: string): Option<int> {
    Number(SkipSpace(s))
  }

  function Number(t: string): Option<int> {
    var negative := t != "" && t[0] == '-';
    var u := if t != "" && (t[0] == '-' || t[0] == '+') then t[1..] else t;
    var digits := LeadingDigits(u);
    LeadingDigitsAreDigits(u);
    if digits == "" then None
    else
      var n: int := if negative then 0 - Decimal(digits) else Decimal(digits);
      if -0x8000_0000 <= n < 0x8000_0000 then Some(n) else None
  }

  function Digit(n: nat): char
    requires n < 10
  {
    '0' + n as char
  }

  function Digits(n: nat): string {
    if n < 10 then [Digit(n)] else Digits(n / 10) + [Digit(n % 10)]
  }

  lemma {:induction false} DigitsAreDecimal(n: nat)
    ensures Digits(n) != "" && forall c :: c in Digits(n) ==> IsDigit(c)
    ensures Decimal(Digits(n)) == n
  {
    if n >= 10 {
      DigitsAreDecimal(n / 10);
      var d := Digits(n);
      assert d[..|d| - 1] == Digits(n / 10);
    }
  }

  lemma {:induction false} AllDigitsLead(s: string)
    requires forall c :: c in s ==> IsDigit(c)
    ensures LeadingDigits(s) == s
  {
    if s != "" {
      assert s[0] in s;
      assert forall c :: c in s[1..] ==> c in s;
      AllDigitsLead(s[1..]);
    }
  }

  /** std::stoi reads back every non-negative int written in decimal. */
  lemma StoiOfDigits(n: nat)
    requires n < 0x8000_0000
    ensures Stoi(Digits(n)) == Some(n) && !Dashed(Digits(n))
  {
    var d := Digits(n);
    DigitsAreDecimal(n);
    AllDigitsLead(d);
    assert IsDigit(d[0]) by { assert d[0] in d; }
    assert SkipSpace(d) == d;
  }

  lemma {:induction false} SpaceIsSkipped(ws: string, s: string)
    requires forall c :: c in ws ==> IsSpace(c)
    requires s == "" || !IsSpace(s[0])
    ensures SkipSpace(ws + s) == s
  {
    if ws == "" {
      assert ws + s == s;
    } else {
      assert ws[0] in ws && forall c :: c in ws[1..] ==> c in ws;
      assert (ws + s)[1..] == ws[1..] + s;
      SpaceIsSkipped(ws[1..], s);
    }
  }

  lemma {:induction false} DigitsLead(ds: string, rest: string)
    requires forall c :: c in ds ==> IsDigit(c)
    requires rest == "" || !IsDigit(rest[0])
    ensures LeadingDigits(ds + rest) == ds
  {
    if ds == "" {
      assert ds + rest == rest;
    } else {
      assert ds[0] in ds && forall c :: c in ds[1..] ==> c in ds;
      assert (ds + rest)[1..] == ds[1..] + rest;
      DigitsLead(ds[1..], rest);
    }
  }

  lemma SignIsRead(sign: string, u: string)
    requires sign in {"", "+", "-"}
    requires sign == "" ==> u == "" || (u[0] != '-' && u[0] != '+')
    ensures var t := sign + u;
            && (t != "" && t[0] == '-' <==> sign == "-")
            && (if t != "" && (t[0] == '-' || t[0] == '+') then t[1..] else t) == u
  {
    var t := sign + u;
    if sign == "" {
      assert t == u;
    } else {
      assert t[1..] == u;
    }
  }

  /** White space, a sign and digits are read as a number, whatever follows; one that is no int throws. */
  lemma StoiReads(ws: string, sign: string, ds: string, rest: string)
    requires forall c :: c in ws ==> IsSpace(c)
    requires sign in {"", "+", "-"}
    requires ds != "" && forall c :: c in ds ==> IsDigit(c)
    requires rest == "" || !IsDigit(rest[0])
    ensures var n: int := if sign == "-" then 0 - Decimal(ds) else Decimal(ds);
            Stoi(ws + (sign + (ds + rest))) == if -2147483648 <= n <= 2147483647 then Some(n) else None
  {
    var u := ds + rest;
    DigitsLead(ds, rest);
    FirstDigit(sign, ds, rest);
    SpaceIsSkipped(ws, sign + u);
    NumberReads(sign, u, ds);
  }

  lemma FirstDigit(sign: string, ds: string, rest: string)
    requires sign in {"", "+", "-"} && ds != "" && forall c :: c in ds ==> IsDigit(c)
    ensures IsDigit((ds + rest)[0]) && !IsSpace((sign + (ds + rest))[0])
  {
    assert ds[0] in ds;
    assert sign == "" ==> sign + (ds + rest) == ds + rest;
  }

  lemma NumberReads(sign: string, u: string, ds: string)
    requires sign in {"", "+", "-"} && u != "" && IsDigit(u[0])
    requires LeadingDigits(u) == ds != "" && forall c :: c in ds ==> IsDigit(c)
    ensures var n: int := if sign == "-" then 0 - Decimal(ds) else Decimal(ds);
            Number(sign + u) == if -2147483648 <= n <= 2147483647 then Some(n) else None
  {
    SignIsRead(sign, u);
  }

  /** Without a digit there it throws. */
  lemma StoiThrows(ws: string, sign: string, rest: string)
    requires forall c :: c in ws ==> IsSpace(c)
    requires sign in {"", "+", "-"}
    requires rest == "" || !IsDigit(rest[0])
    requires sign == "" && rest != "" ==> !IsSpace(rest[0]) && rest[0] != '-' && rest[0] != '+'
    ensures Stoi(ws + (sign + rest)) == None
  {
    SignIsRead(sign, rest);
    SpaceIsSkipped(ws, sign + rest);
    DigitsLead("", rest);
    assert "" + rest == rest;
  }

  // ------------------------------------------------------------------
  // Options

  datatype Validator = Anything | IntRange(lo: int, hi: int) | OneOf(accepted: set<string>)

  datatype Verdict = Pass | Fail | Throws

  function Judge(v: Validator, s: string): Verdict {
    match v
    case Anything => Pass
    case IntRange(lo, hi) =>
      (match Stoi(s)
       case None => Throws
       case Some(n) => if lo <= n <= hi then Pass else Fail)
    case OneOf(accepted) => if s in accepted then Pass else Fail
  }

  datatype Opt = Opt(defaultValue: string, required: bool, validator: Validator)

  const BLANK := Opt("", false, Anything)

  /** The parser's maps: options_, aliases_ and values_. */
  datatype Store = Store(options: map<string, Opt>, aliases: map<string, string>, values: map<string, string>)

  datatype Outcome = Accepted(store: Store) | Rejected | Threw

  // ------------------------------------------------------------------
  // What parsing means

  predicate Dashed(s: string) {
    s != "" && s[0] == '-'
  }

  predicate IsHelp(arg: string) {
    arg == "--help" || arg == "-h"
  }

  predicate IsLong(arg: string) {
    |arg| >= 2 && arg[..2] == "--"
  }

  predicate IsShort(arg: string) {
    |arg| > 1 && arg[0] == '-' && !IsLong(arg)
  }

  /** The option an argument names, if any. */
  function Named(st: Store, arg: string): Option<string> {
    if IsHelp(arg) then None
    else if IsLong(arg) then (if arg[2..] in st.options then Some(arg[2..]) else None)
    else if IsShort(arg) && arg[1..] in st.aliases then Some(st.aliases[arg[1..]])
    else None
  }

  /** Looking an option up in options_ by [] creates it when an alias names one that is missing. */
  function Touch(st: Store, name: string): Store {
    if name in st.options then st else st.(options := st.options[name := BLANK])
  }

  function Assign(st: Store, name: string, value: string): Store {
    st.(values := st.values[name := value])
  }

  function ParseArgs(st: Store, args: seq<string>): Outcome
    decreases |args|
  {
    if args == [] then Accepted(st)
    else
      var name := Named(st, args[0]);
      if name.None? then Rejected
      else if |args| > 1 && !Dashed(args[1]) then
        var st' := Touch(st, name.value);
        match Judge(st'.options[name.value].validator, args[1])
        case Throws => Threw
        case Fail => Rejected
        case Pass => ParseArgs(Assign(st', name.value, args[1]), args[2..])
      else ParseArgs(Assign(st, name.value, "true"), args[1..])
  }

  predicate RequiredPresent(st: Store) {
    forall n :: n in st.options && st.options[n].required ==> n in st.values
  }

  function Parsed(st: Store, args: seq<string>): Outcome {
    var r := ParseArgs(st, args);
    if r.Accepted? && !RequiredPresent(r.store) then Rejected else r
  }

  // ------------------------------------------------------------------
  // The parser object

  class ProgramOptions {
    var options: map<string, Opt>
    var aliases: map<string, string>
    var values: map<string, string>

    ghost function View(): Store
      reads this
    {
      Store(options, aliases, values)
    }

    constructor ()
      ensures View() == Store(map[], map[], map[])
    {
      options, aliases, values := map[], map[], map[];
    }

    method AddOption(name: string, option: Opt)
      modifies this
      ensures View() == Added(old(View()), name, option)
    {
      options := options[name := option];
      if option.defaultValue != "" {
        values := values[name := option.defaultValue];
      }
    }

    method AddAlias(alias: string, name: string)
      modifies this
      ensures View() == old(View()).(aliases := old(aliases)[alias := name])
    {
      aliases := aliases[alias := name];
    }

    /** `args` is argv without the program name. The loop advances by one or two tokens. */
    method Parse(args: seq<string>) returns (ok: bool, threw: bool)
      modifies this
      ensures threw <==> Parsed(old(View()), args).Threw?
      ensures ok <==> Parsed(old(View()), args).Accepted?
      ensures ok ==> View() == Parsed(old(View()), args).store
    {
      threw := false;
      var i := 0;
      while i < |args|
        invariant 0 <= i <= |args|
        invariant ParseArgs(View(), args[i..]) == ParseArgs(old(View()), args)
        invariant !threw
      {
        var arg := args[i];
        assert args[i..][0] == arg;
        if IsHelp(arg) {
          return false, false;
        }
        var name: string;
        if IsLong(arg) {
          name := arg[2..];
          if name !in options {
            return false, false;
          }
        } else if IsShort(arg) {
          if arg[1..] !in aliases {
            return false, false;
          }
          name := aliases[arg[1..]];
        } else {
          return false, false;
        }
        assert Named(View(), arg) == Some(name);
        if i + 1 < |args| && !Dashed(args[i + 1]) {
          var value := args[i + 1];
          assert args[i..][1] == value && args[i..][2..] == args[i + 2..];
          if name !in options {
            options := options[name := BLANK];
          }
          var verdict := Judge(options[name].validator, value);
          if verdict.Throws? {
            return false, true;
          }
          if verdict.Fail? {
            return false, false;
          }
          values := values[name := value];
          i := i + 2;
        } else {
          assert args[i..][1..] == args[i + 1..];
          values := values[name := "true"];
          i := i + 1;
        }
      }
      assert args[i..] == [];
      ok := forall n :: n in options && options[n].required ==> n in values;
    }
  }

  function Added(st: Store, name: string, option: Opt): Store {
    st.(options := st.options[name := option],
        values := if option.defaultValue != "" then st.values[name := option.defaultValue] else st.values)
  }

  lemma LongFormIsNamed(st: Store, name: string)
    requires name in st.options && name != "help"
    ensures Named(st, "--" + name) == Some(name) && Dashed("--" + name)
  {
    var long := "--" + name;
    assert long[..2] == "--" && long[2..] == name && "--help"[2..] == "help";
    assert long[1] == '-' && "-h"[1] == 'h';
  }

  /**
   An option that was added is recognised by its long form, and its value is let
   in exactly when its validator passes. Every other option keeps its value.
   */
  lemma AddedOptionParses(st: Store, name: string, option: Opt, value: string)
    requires name != "help" && !Dashed(value)
    ensures var st' := Added(st, name, option);
            ParseArgs(st', ["--" + name, value]) ==
            match Judge(option.validator, value)
            case Pass => Accepted(Assign(st', name, value))
            case Fail => Rejected
            case Throws => Threw
    ensures var st' := Added(st, name, option);
            forall n :: n != name ==> (n in st'.values <==> n in st.values) && (Vetted(st', n) <==> Vetted(st, n))
    ensures option.defaultValue != "" && Judge(option.validator, option.defaultValue).Pass? ==>
            Vetted(Added(st, name, option), name)
  {
    var st', args := Added(st, name, option), ["--" + name, value];
    LongFormIsNamed(st', name);
    assert args[2..] == [];
  }

  /** An alias that was added stands for the long form of its option, whatever follows it. */
  lemma AddedAliasParses(st: Store, alias: string, name: string, rest: seq<string>)
    requires alias != "" && alias != "h" && !Dashed(alias) && name in st.options && name != "help"
    ensures var st' := st.(aliases := st.aliases[alias := name]);
            && ParseArgs(st', ["-" + alias] + rest) == ParseArgs(st', ["--" + name] + rest)
            && (WellFormed(st) ==> WellFormed(st'))
  {
    var st' := st.(aliases := st.aliases[alias := name]);
    var short, shorts, longs := "-" + alias, ["-" + alias] + rest, ["--" + name] + rest;
    LongFormIsNamed(st', name);
    assert short[1..] == alias && "-h"[1..] == "h" && "--help"[1..] == "-help";
    assert Named(st', short) == Some(name);
    assert shorts[1..] == longs[1..];
    if rest != [] {
      assert shorts[1] == longs[1] && shorts[2..] == longs[2..];
    }
  }

  /**
   An alias of an option that is not in the table is accepted too: a value creates
   the option, optional and without a validator; without one it is only marked.
   */
  lemma DanglingAliasParses(st: Store, alias: string, value: string)
    requires alias != "" && alias != "h" && !Dashed(alias) && !Dashed(value)
    requires alias in st.aliases && st.aliases[alias] !in st.options
    ensures var name := st.aliases[alias];
            ParseArgs(st, ["-" + alias, value]) ==
            Accepted(Store(st.options[name := Opt("", false, Anything)], st.aliases, st.values[name := value]))
    ensures var name := st.aliases[alias];
            ParseArgs(st, ["-" + alias]) == Accepted(Store(st.options, st.aliases, st.values[name := "true"]))
  {
    var short := "-" + alias;
    assert short[1..] == alias && "-h"[1..] == "h" && "--help"[1..] == "-help";
    assert Named(st, short) == Some(st.aliases[alias]);
    assert [short, value][2..] == [] && [short][1..] == [];
  }

  // ------------------------------------------------------------------
  // Long and short forms

  /** Aliases are free of dashes, and name options the parser knows under a usable name. */
  predicate WellFormed(st: Store) {
    forall a :: a in st.aliases ==> !Dashed(a) && st.aliases[a] in st.options && st.aliases[a] != "help"
  }

  /** A known short form replaced by the long one; every other token as it is. */
  function LongForm(st: Store, arg: string): string {
    if IsShort(arg) && !IsHelp(arg) && arg[1..] in st.aliases then "--" + st.aliases[arg[1..]] else arg
  }

  function LongForms(st: Store, args: seq<string>): seq<string> {
    seq(|args|, i requires 0 <= i < |args| => LongForm(st, args[i]))
  }

  lemma LongFormNames(st: Store, arg: string)
    requires WellFormed(st)
    ensures Named(st, LongForm(st, arg)) == Named(st, arg)
    ensures Dashed(LongForm(st, arg)) <==> Dashed(arg)
    ensures !Dashed(arg) ==> LongForm(st, arg) == arg
  {
    if LongForm(st, arg) != arg {
      var name := st.aliases[arg[1..]];
      var long := "--" + name;
      assert long[..2] == "--" && long[2..] == name;
      assert "--help"[2..] == "help";
    }
  }

  lemma {:induction false} LongFormsParseAlike(st: Store, args: seq<string>)
    requires WellFormed(st)
    ensures ParseArgs(st, LongForms(st, args)) == ParseArgs(st, args)
    decreases |args|
  {
    if args != [] {
      var longs := LongForms(st, args);
      LongFormNames(st, args[0]);
      var name := Named(st, args[0]);
      if name.Some? {
        assert name.value in st.options;
        if |args| > 1 {
          LongFormNames(st, args[1]);
        }
        if |args| > 1 && !Dashed(args[1]) {
          var st' := Assign(st, name.value, args[1]);
          assert longs[2..] == LongForms(st', args[2..]);
          LongFormsParseAlike(st', args[2..]);
        } else {
          var st' := Assign(st, name.value, "true");
          assert longs[1..] == LongForms(st', args[1..]);
          LongFormsParseAlike(st', args[1..]);
        }
      }
    }
  }

  /** Replacing every known short form by its long form changes neither the outcome nor the values. */
  lemma AliasesAreTransparent(st: Store, args: seq<string>)
    requires WellFormed(st)
    ensures Parsed(st, LongForms(st, args)) == Parsed(st, args)
  {
    LongFormsParseAlike(st, args);
  }

  // ------------------------------------------------------------------
  // Rendering and parsing back

  datatype Binding = Binding(name: string, value: string)

  function Render(bs: seq<Binding>): seq<string> {
    if bs == [] then [] else ["--" + bs[0].name, bs[0].value] + Render(bs[1..])
  }

  function Override(values: map<string, string>, bs: seq<Binding>): map<string, string>
    decreases |bs|
  {
    if bs == [] then values else Override(values[bs[0].name := bs[0].value], bs[1..])
  }

  predicate Renderable(st: Store, b: Binding) {
    && b.name in st.options && b.name != "help"
    && !Dashed(b.value) && Judge(st.options[b.name].validator, b.value).Pass?
  }

  lemma {:induction false} RenderedArgsParseBack(st: Store, bs: seq<Binding>)
    requires forall i :: 0 <= i < |bs| ==> Renderable(st, bs[i])
    ensures ParseArgs(st, Render(bs)) == Accepted(st.(values := Override(st.values, bs)))
    decreases |bs|
  {
    if bs != [] {
      var b, rest := bs[0], bs[1..];
      var args := Render(bs);
      assert Renderable(st, b);
      assert args[0] == "--" + b.name && args[1] == b.value && args[2..] == Render(rest);
      LongFormIsNamed(st, b.name);
      var st' := Assign(st, b.name, b.value);
      assert forall i :: 0 <= i < |rest| ==> rest[i] == bs[i + 1];
      assert forall i :: 0 <= i < |rest| ==> Renderable(st', rest[i]);
      RenderedArgsParseBack(st', rest);
    }
  }

  function LastBound(bs: seq<Binding>, n: string): Option<string> {
    if bs == [] then None
    else
      var later := LastBound(bs[1..], n);
      if later.Some? then later else if bs[0].name == n then Some(bs[0].value) else None
  }

  /** Where a setting is given more than once, the last one counts; the rest keeps its value. */
  lemma {:induction false} OverrideMeans(values: map<string, string>, bs: seq<Binding>, n: string)
    ensures var v, last := Override(values, bs), LastBound(bs, n);
            if last.Some? then n in v && v[n] == last.value
            else (n in v <==> n in values) && (n in v ==> v[n] == values[n])
    decreases |bs|
  {
    if bs != [] {
      OverrideMeans(values[bs[0].name := bs[0].value], bs[1..], n);
    }
  }

  /** Settings written out as arguments parse back to the defaults overridden by them. */
  lemma RenderedSettingsParseBack(st: Store, bs: seq<Binding>)
    requires forall i :: 0 <= i < |bs| ==> Renderable(st, bs[i])
    requires RequiredPresent(st.(values := Override(st.values, bs)))
    ensures Parsed(st, Render(bs)) == Accepted(st.(values := Override(st.values, bs)))
  {
    RenderedArgsParseBack(st, bs);
  }

  /** The same settings with each option written by its alias. */
  function RenderShort(shorts: seq<string>, bs: seq<Binding>): seq<string>
    requires |shorts| == |bs|
  {
    if bs == [] then [] else ["-" + shorts[0], bs[0].value] + RenderShort(shorts[1..], bs[1..])
  }

  predicate StandsFor(st: Store, short: string, b: Binding) {
    && short in st.aliases && st.aliases[short] == b.name
    && short != "" && short != "h" && !Dashed(short) && !Dashed(b.value)
  }

  lemma ShortIsLong(st: Store, short: string, b: Binding)
    requires StandsFor(st, short, b)
    ensures LongForm(st, "-" + short) == "--" + b.name && LongForm(st, b.value) == b.value
  {
    var arg := "-" + short;
    assert arg[1..] == short && "-h"[1..] == "h" && "--help"[1..] == "-help";
  }

  lemma {:induction false} ShortFormsAreLong(st: Store, shorts: seq<string>, bs: seq<Binding>)
    requires |shorts| == |bs| && forall i :: 0 <= i < |bs| ==> StandsFor(st, shorts[i], bs[i])
    ensures LongForms(st, RenderShort(shorts, bs)) == Render(bs)
    decreases |bs|
  {
    if bs != [] {
      var shorts', bs' := shorts[1..], bs[1..];
      assert forall i :: 0 <= i < |bs'| ==> shorts'[i] == shorts[i + 1] && bs'[i] == bs[i + 1];
      ShortFormsAreLong(st, shorts', bs');
      assert StandsFor(st, shorts[0], bs[0]);
      ShortIsLong(st, shorts[0], bs[0]);
      var args, rest := RenderShort(shorts, bs), RenderShort(shorts', bs');
      assert args == ["-" + shorts[0], bs[0].value] + rest;
      assert LongForms(st, args) == ["--" + bs[0].name, bs[0].value] + LongForms(st, rest);
    }
  }

  // ------------------------------------------------------------------
  // What an accepted value is

  /** A value is "true", left by an option without one, or passed its option's validator. */
  predicate Vetted(st: Store, n: string) {
    n in st.values && n in st.options ==>
      st.values[n] == "true" || Judge(st.options[n].validator, st.values[n]).Pass?
  }

  /** Parsing never lets an unchecked value in, and never forgets an option or a value. */
  lemma {:induction false} ParsingVets(st: Store, args: seq<string>)
    requires WellFormed(st)
    requires forall n :: Vetted(st, n)
    requires ParseArgs(st, args).Accepted?
    ensures var st' := ParseArgs(st, args).store;
            && st'.options == st.options && st'.aliases == st.aliases
            && (forall n :: n in st.values ==> n in st'.values)
            && forall n :: Vetted(st', n)
    decreases |args|
  {
    if args != [] {
      var name := Named(st, args[0]).value;
      assert name in st.options;
      if |args| > 1 && !Dashed(args[1]) {
        var st' := Assign(st, name, args[1]);
        assert forall n :: n != name ==> (Vetted(st', n) <==> Vetted(st, n));
        ParsingVets(st', args[2..]);
      } else {
        var st' := Assign(st, name, "true");
        assert forall n :: n != name ==> (Vetted(st', n) <==> Vetted(st, n));
        ParsingVets(st', args[1..]);
      }
    }
  }

  // ------------------------------------------------------------------
  // Which argument lists are accepted, token by token

  datatype Mark = Fine | Wrong | Throwing

  /**
   A token names an option, or is the value of the option the token before it
   names and passes that option's validator. Anything else is wrong.
   */
  function MarkAt(st: Store, args: seq<string>, i: nat): Mark
    requires i < |args|
  {
    if Named(st, args[i]).Some? then Fine
    else if i > 0 && !Dashed(args[i]) then ValueMark(st, Named(st, args[i - 1]), args[i])
    else Wrong
  }

  function ValueMark(st: Store, name: Option<string>, value: string): Mark {
    if name.None? || name.value !in st.options then Wrong
    else
      match Judge(st.options[name.value].validator, value)
      case Pass => Fine
      case Fail => Wrong
      case Throws => Throwing
  }

  predicate AllFine(st: Store, args: seq<string>) {
    forall i :: 0 <= i < |args| ==> MarkAt(st, args, i) == Fine
  }

  /** The first token that is not fine is marked `m`. */
  predicate FaultAt(st: Store, args: seq<string>, i: int, m: Mark) {
    0 <= i < |args| && MarkAt(st, args, i) == m && forall j :: 0 <= j < i ==> MarkAt(st, args, j) == Fine
  }

  ghost predicate Faulty(st: Store, args: seq<string>, m: Mark) {
    exists i :: FaultAt(st, args, i, m)
  }

  /** `k` tokens that form one setting, the rest to be marked on its own. */
  predicate Splits(st: Store, args: seq<string>, k: nat) {
    && 1 <= k <= 2 && k <= |args| && Named(st, args[0]).Some?
    && (k == 1 ==> |args| == 1 || Dashed(args[1]))
    && (k == 2 ==> !Dashed(args[1]))
  }

  lemma MarkShifts(st: Store, st': Store, args: seq<string>, k: nat, i: nat)
    requires Splits(st, args, k) && k <= i < |args|
    requires st'.options == st.options && st'.aliases == st.aliases
    ensures MarkAt(st, args, i) == MarkAt(st', args[k..], i - k)
  {
    var rest := args[k..];
    assert Named(st', rest[i - k]) == Named(st, args[i]);
    if i > k {
      assert Named(st', rest[i - k - 1]) == Named(st, args[i - 1]);
    }
  }

  lemma FaultShifts(st: Store, st': Store, args: seq<string>, k: nat, m: Mark)
    requires Splits(st, args, k) && m != Fine
    requires st'.options == st.options && st'.aliases == st.aliases
    requires forall j :: 0 <= j < k ==> MarkAt(st, args, j) == Fine
    ensures Faulty(st, args, m) <==> Faulty(st', args[k..], m)
    ensures AllFine(st, args) <==> AllFine(st', args[k..])
  {
    var rest := args[k..];
    forall i | k <= i < |args| ensures MarkAt(st, args, i) == MarkAt(st', rest, i - k) {
      MarkShifts(st, st', args, k, i);
    }
    assert forall i :: 0 <= i < |rest| ==> MarkAt(st', rest, i) == MarkAt(st, args, i + k);
    if Faulty(st, args, m) {
      var i :| FaultAt(st, args, i, m);
      assert FaultAt(st', rest, i - k, m);
    }
    if Faulty(st', rest, m) {
      var i :| FaultAt(st', rest, i, m);
      assert FaultAt(st, args, i + k, m);
    }
  }

  lemma FirstIsFault(st: Store, args: seq<string>, i: nat)
    requires i < |args| && MarkAt(st, args, i) != Fine && forall j :: 0 <= j < i ==> MarkAt(st, args, j) == Fine
    ensures !AllFine(st, args)
    ensures Faulty(st, args, Wrong) <==> MarkAt(st, args, i) == Wrong
    ensures Faulty(st, args, Throwing) <==> MarkAt(st, args, i) == Throwing
  {
    assert FaultAt(st, args, i, MarkAt(st, args, i));
  }

  /** How ParseArgs ends, told by the marks. */
  ghost predicate EndsAsMarked(st: Store, args: seq<string>) {
    var r := ParseArgs(st, args);
    && (r.Accepted? <==> AllFine(st, args))
    && (r.Rejected? <==> Faulty(st, args, Wrong))
    && (r.Threw? <==> Faulty(st, args, Throwing))
  }

  lemma SettingEndsAsMarked(st: Store, st': Store, args: seq<string>, k: nat)
    requires Splits(st, args, k) && EndsAsMarked(st', args[k..])
    requires st'.options == st.options && st'.aliases == st.aliases
    requires forall j :: 0 <= j < k ==> MarkAt(st, args, j) == Fine
    requires ParseArgs(st, args) == ParseArgs(st', args[k..])
    ensures EndsAsMarked(st, args)
  {
    FaultShifts(st, st', args, k, Wrong);
    FaultShifts(st, st', args, k, Throwing);
  }

  /**
   An argument list is accepted exactly when every token is fine; otherwise the
   first token that is not decides between rejection and an exception.
   */
  lemma {:induction false} ParsingFollowsTokens(st: Store, args: seq<string>)
    requires WellFormed(st)
    ensures EndsAsMarked(st, args)
    decreases |args|
  {
    if args != [] {
      var name := Named(st, args[0]);
      if name.None? {
        FirstIsFault(st, args, 0);
      } else if |args| > 1 && !Dashed(args[1]) {
        assert name.value in st.options && Named(st, args[1]).None?;
        if MarkAt(st, args, 1) == Fine {
          var st' := Assign(st, name.value, args[1]);
          ParsingFollowsTokens(st', args[2..]);
          SettingEndsAsMarked(st, st', args, 2);
        } else {
          FirstIsFault(st, args, 1);
        }
      } else {
        var st' := Assign(st, name.value, "true");
        ParsingFollowsTokens(st', args[1..]);
        SettingEndsAsMarked(st, st', args, 1);
      }
    }
  }

  lemma {:induction false} ParsingKeepsTables(st: Store, args: seq<string>)
    requires WellFormed(st) && ParseArgs(st, args).Accepted?
    ensures var st' := ParseArgs(st, args).store;
            st'.options == st.options && st'.aliases == st.aliases
    decreases |args|
  {
    if args != [] {
      var name := Named(st, args[0]).value;
      assert name in st.options;
      if |args| > 1 && !Dashed(args[1]) {
        ParsingKeepsTables(Assign(st, name, args[1]), args[2..]);
      } else {
        ParsingKeepsTables(Assign(st, name, "true"), args[1..]);
      }
    }
  }

  /** A request for help, or any other token the parser does not know, ends the parse unaccepted. */
  lemma UnknownTokenIsFatal(st: Store, args: seq<string>, i: nat)
    requires WellFormed(st) && i < |args| && Dashed(args[i])
    requires args[i] == "--help" || args[i] == "-h" || Named(st, args[i]).None?
    ensures !Parsed(st, args).Accepted?
  {
    ParsingFollowsTokens(st, args);
    assert MarkAt(st, args, i) == Wrong;
  }

  // ------------------------------------------------------------------
  // Which values an accepted argument list leaves

  /** The value the last use of `n` gives: the token after it, or "true" when there is none. */
  function LastGiven(st: Store, args: seq<string>, n: string): Option<string> {
    if args == [] then None
    else
      var later := LastGiven(st, args[1..], n);
      if later.Some? then later
      else if Named(st, args[0]) != Some(n) then None
      else if |args| > 1 && !Dashed(args[1]) then Some(args[1])
      else Some("true")
  }

  lemma {:induction false} LastGivenIgnoresValues(st: Store, name: string, value: string, args: seq<string>, n: string)
    ensures LastGiven(Assign(st, name, value), args, n) == LastGiven(st, args, n)
  {
    if args != [] {
      LastGivenIgnoresValues(st, name, value, args[1..], n);
    }
  }

  lemma LastGivenSkipsValue(st: Store, args: seq<string>, n: string)
    requires |args| > 1 && !Dashed(args[1])
    ensures var later := LastGiven(st, args[2..], n);
            LastGiven(st, args, n) ==
            if later.Some? then later else if Named(st, args[0]) == Some(n) then Some(args[1]) else None
  {
    assert args[1..][1..] == args[2..] && Named(st, args[1]).None?;
    assert LastGiven(st, args[1..], n) == LastGiven(st, args[2..], n);
  }

  function ValueOf(values: map<string, string>, n: string): Option<string> {
    if n in values then Some(values[n]) else None
  }

  /** After an accepted parse each option has the value of its last use, or the one it had before. */
  lemma {:induction false} LastUseCounts(st: Store, args: seq<string>, n: string)
    requires WellFormed(st) && ParseArgs(st, args).Accepted?
    ensures ValueOf(ParseArgs(st, args).store.values, n) ==
            if LastGiven(st, args, n).Some? then LastGiven(st, args, n) else ValueOf(st.values, n)
    decreases |args|
  {
    if args != [] {
      var name := Named(st, args[0]).value;
      assert name in st.options;
      if |args| > 1 && !Dashed(args[1]) {
        LastUseCounts(Assign(st, name, args[1]), args[2..], n);
        LastGivenIgnoresValues(st, name, args[1], args[2..], n);
        LastGivenSkipsValue(st, args, n);
      } else {
        LastUseCounts(Assign(st, name, "true"), args[1..], n);
        LastGivenIgnoresValues(st, name, "true", args[1..], n);
      }
    }
  }

  predicate Covered(st: Store, args: seq<string>, n: string) {
    n in st.values || LastGiven(st, args, n).Some?
  }

  /**
   The whole parser, told by the tokens: it accepts exactly when every token is
   fine and every required option has a value from the start or from a token, and
   throws exactly when the first token that is not fine throws.
   */
  lemma ParsedIff(st: Store, args: seq<string>)
    requires WellFormed(st)
    ensures Parsed(st, args).Accepted? <==>
            && AllFine(st, args)
            && forall n :: n in st.options && st.options[n].required ==> Covered(st, args, n)
    ensures Parsed(st, args).Threw? <==> Faulty(st, args, Throwing)
  {
    ParsingFollowsTokens(st, args);
    if AllFine(st, args) {
      ParsingKeepsTables(st, args);
      var st' := ParseArgs(st, args).store;
      forall n ensures n in st'.values <==> Covered(st, args, n) {
        LastUseCounts(st, args, n);
      }
    }
  }

  // ------------------------------------------------------------------
  // Options given without a value

  /**
   Whether the last token that names `n` came without a value: it is the last
   token of all, or a dashed one follows. None when no token names `n`.
   */
  function LastUseBare(st: Store, args: seq<string>, n: string): Option<bool> {
    if args == [] then None
    else
      var later := LastUseBare(st, args[1..], n);
      if later.Some? then later
      else if Named(st, args[0]) == Some(n) then Some(|args| == 1 || Dashed(args[1]))
      else None
  }

  lemma {:induction false} LastUseIgnoresValues(st: Store, name: string, value: string, args: seq<string>, n: string)
    ensures LastUseBare(Assign(st, name, value), args, n) == LastUseBare(st, args, n)
  {
    if args != [] {
      LastUseIgnoresValues(st, name, value, args[1..], n);
    }
  }

  /** A value is no use of an option. */
  lemma LastUseSkipsValue(st: Store, args: seq<string>, n: string)
    requires |args| > 1 && !Dashed(args[1])
    ensures var later := LastUseBare(st, args[2..], n);
            LastUseBare(st, args, n) ==
            if later.Some? then later else if Named(st, args[0]) == Some(n) then Some(false) else None
  {
    assert args[1..][1..] == args[2..] && Named(st, args[1]).None?;
    assert LastUseBare(st, args[1..], n) == LastUseBare(st, args[2..], n);
  }

  lemma TrueIsNoInt()
    ensures Stoi("true") == None
  {
    assert SkipSpace("true") == "true";
  }

  predicate HoldsTrue(values: map<string, string>, n: string) {
    n in values && values[n] == "true"
  }

  /** On an accepted line an int option ends up as "true" exactly when its last use came without a value. */
  lemma {:induction false} TrueIffLastUseBare(st: Store, args: seq<string>, n: string)
    requires WellFormed(st) && n in st.options && st.options[n].validator.IntRange?
    requires ParseArgs(st, args).Accepted?
    ensures HoldsTrue(ParseArgs(st, args).store.values, n) <==>
            match LastUseBare(st, args, n)
            case Some(bare) => bare
            case None => HoldsTrue(st.values, n)
    decreases |args|
  {
    if args != [] {
      var name := Named(st, args[0]).value;
      assert name in st.options;
      if |args| > 1 && !Dashed(args[1]) {
        assert name == n ==> args[1] != "true" by { TrueIsNoInt(); }
        TrueIffLastUseBare(Assign(st, name, args[1]), args[2..], n);
        LastUseIgnoresValues(st, name, args[1], args[2..], n);
        LastUseSkipsValue(st, args, n);
      } else {
        TrueIffLastUseBare(Assign(st, name, "true"), args[1..], n);
        LastUseIgnoresValues(st, name, "true", args[1..], n);
      }
    }
  }
}
