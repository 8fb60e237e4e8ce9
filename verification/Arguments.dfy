/** The shape of argv, and the hand-written parsers that run after its check. */
module Arguments {
  import opened Wrappers
  import opened Text

  /** An option that was given: alone, or with a value. */
  datatype Given = Flag | Value(text: string)

  type Options = map<string, Given>

  datatype Form = Form(minimum: nat, maximum: Option<nat>, switches: set<string>, values: set<string>,
                       exclusive: seq<set<string>>, required: set<string>, interspersed: bool, leading: nat)

  /** What is accepted: the positional arguments and the options. */
  datatype Shape = Shape(positional: seq<string>, options: Options)

  /** The walk over the arguments; None is a usage error. */
  function Walk(f: Form, args: seq<string>, positional: seq<string>, options: Options, seen: bool): Option<Shape>
    decreases |args|
  {
    if args == [] then Some(Shape(positional, options))
    else
      var arg := args[0];
      if arg in f.switches || arg in f.values then
        if |positional| < f.leading || arg in options then None
        else if arg in f.values then
          if |args| < 2 || StartsWith(args[1], "--") then None
          else Walk(f, args[2..], positional, options[arg := Value(args[1])], true)
        else Walk(f, args[1..], positional, options[arg := Flag], true)
      else if StartsWith(arg, "--") || arg == "-h" then None
      else if seen && !f.interspersed then None
      else Walk(f, args[1..], positional + [arg], options, seen)
  }

  /** The checks after the walk. */
  predicate Fits(f: Form, s: Shape) {
    && f.minimum <= |s.positional|
    && (f.maximum.Some? ==> |s.positional| <= f.maximum.value)
    && (forall g | g in f.exclusive :: |g * s.options.Keys| <= 1)
    && f.required <= s.options.Keys
  }

  function Check(f: Form, args: seq<string>): Option<Shape> {
    var s := Walk(f, args, [], map[], false);
    if s.Some? && Fits(f, s.value) then s else None
  }

  /** `Form.check`. */
  method CheckForm(f: Form, args: seq<string>) returns (r: Option<Shape>)
    ensures r == Check(f, args)
  {
    var positional, options, seen, index := [], map[], false, 0;
    while index < |args|
      invariant index <= |args|
      invariant Walk(f, args, [], map[], false) == Walk(f, args[index..], positional, options, seen)
    {
      var arg := args[index];
      ghost var rest := args[index..];
      assert rest[0] == arg && rest[1..] == args[index + 1..];
      index := index + 1;
      if arg in f.switches || arg in f.values {
        if |positional| < f.leading || arg in options {
          return None;
        }
        seen := true;
        if arg in f.values {
          if index >= |args| || StartsWith(args[index], "--") {
            return None;
          }
          assert rest[1] == args[index] && rest[2..] == args[index + 1..];
          options := options[arg := Value(args[index])];
          index := index + 1;
        } else {
          options := options[arg := Flag];
        }
      } else if StartsWith(arg, "--") || arg == "-h" {
        return None;
      } else {
        if seen && !f.interspersed {
          return None;
        }
        positional := positional + [arg];
      }
    }
    var s := Shape(positional, options);
    r := if Fits(f, s) then Some(s) else None;
  }

  /** Options are written with two dashes. */
  predicate Dashed(f: Form) {
    forall o | o in f.switches + f.values :: StartsWith(o, "--")
  }

  // ---- what a form accepts ----

  /** Options as they are typed, in any order. */
  type Typed = seq<(string, Given)>

  function Argv(os: Typed): seq<string> {
    if os == [] then []
    else (match os[0].1 case Flag => [os[0].0] case Value(text) => [os[0].0, text]) + Argv(os[1..])
  }

  function Collected(options: Options, os: Typed): Options
    decreases |os|
  {
    if os == [] then options else Collected(options[os[0].0 := os[0].1], os[1..])
  }

  predicate IsOption(f: Form, o: (string, Given)) {
    match o.1
    case Flag => o.0 in f.switches && o.0 !in f.values
    case Value(text) => o.0 in f.values && !StartsWith(text, "--")
  }

  predicate IsPositional(f: Form, arg: string) {
    arg !in f.switches && arg !in f.values && !StartsWith(arg, "--") && arg != "-h"
  }

  /** Enough positional arguments come first, and every option is known and given once. */
  predicate WellTyped(f: Form, positional: seq<string>, os: Typed) {
    && f.leading <= |positional| && (forall arg | arg in positional :: IsPositional(f, arg))
    && (forall o | o in os :: IsOption(f, o))
    && forall i, j | 0 <= i < j < |os| :: os[i].0 != os[j].0
  }

  /** The number of positional arguments is right, of exclusive options one at most is given, and required ones are. */
  predicate Demanded(f: Form, positional: seq<string>, os: Typed) {
    && f.minimum <= |positional| && (f.maximum.None? || |positional| <= f.maximum.value)
    && (forall g, i, j | g in f.exclusive && 0 <= i < j < |os| :: !(os[i].0 in g && os[j].0 in g))
    && forall r | r in f.required :: exists i | 0 <= i < |os| :: os[i].0 == r
  }

  /** Whatever is typed well is accepted exactly when the form's demands are met, and then every positional argument and
      every option arrives. */
  lemma FormAcceptsIff(f: Form, positional: seq<string>, os: Typed)
    requires WellTyped(f, positional, os)
    ensures Check(f, positional + Argv(os)) ==
              if Demanded(f, positional, os) then Some(Shape(positional, Collected(map[], os))) else None
  {
    WalkPositional(f, positional, [], Argv(os));
    assert [] + positional == positional;
    WalkOptions(f, os, positional, map[], false);
    DemandsMet(f, positional, os);
  }

  lemma {:induction false} WalkPositional(f: Form, args: seq<string>, before: seq<string>, rest: seq<string>)
    requires forall arg | arg in args :: IsPositional(f, arg)
    ensures Walk(f, args + rest, before, map[], false) == Walk(f, rest, before + args, map[], false)
  {
    if args == [] {
      assert args + rest == rest && before + args == before;
    } else {
      assert args[0] in args && (args + rest)[0] == args[0] && (args + rest)[1..] == args[1..] + rest;
      WalkPositional(f, args[1..], before + [args[0]], rest);
      assert before + [args[0]] + args[1..] == before + args;
    }
  }

  lemma {:induction false} WalkOptions(f: Form, os: Typed, positional: seq<string>, options: Options, seen: bool)
    requires f.leading <= |positional| && (forall o | o in os :: IsOption(f, o))
    requires forall i | 0 <= i < |os| :: os[i].0 !in options
    requires forall i, j | 0 <= i < j < |os| :: os[i].0 != os[j].0
    ensures Walk(f, Argv(os), positional, options, seen) == Some(Shape(positional, Collected(options, os)))
  {
    if os != [] {
      assert IsOption(f, os[0]);
      var args, after := Argv(os), options[os[0].0 := os[0].1];
      assert args[0] == os[0].0 && args[|args| - |Argv(os[1..])|..] == Argv(os[1..]);
      WalkOptions(f, os[1..], positional, after, true);
    }
  }

  lemma {:induction false} CollectedKeys(options: Options, os: Typed, name: string)
    ensures name in Collected(options, os) <==> name in options || exists i | 0 <= i < |os| :: os[i].0 == name
    decreases |os|
  {
    if os != [] {
      CollectedKeys(options[os[0].0 := os[0].1], os[1..], name);
      if i :| 0 <= i < |os| && os[i].0 == name {
        assert i > 0 ==> os[1..][i - 1].0 == name;
      }
      if i :| 0 <= i < |os[1..]| && os[1..][i].0 == name {
        assert os[i + 1].0 == name;
      }
    }
  }

  lemma DemandsMet(f: Form, positional: seq<string>, os: Typed)
    requires forall i, j | 0 <= i < j < |os| :: os[i].0 != os[j].0
    ensures Fits(f, Shape(positional, Collected(map[], os))) <==> Demanded(f, positional, os)
  {
    var names := Collected(map[], os).Keys;
    forall name ensures name in names <==> exists i | 0 <= i < |os| :: os[i].0 == name {
      CollectedKeys(map[], os, name);
    }
    forall g ensures |g * names| <= 1 <==> forall i, j | 0 <= i < j < |os| :: !(os[i].0 in g && os[j].0 in g) {
      AtMostOne(g * names, os, g);
    }
  }

  lemma AtMostOne(both: set<string>, os: Typed, g: set<string>)
    requires forall i, j | 0 <= i < j < |os| :: os[i].0 != os[j].0
    requires forall name :: name in both <==> name in g && exists i | 0 <= i < |os| :: os[i].0 == name
    ensures |both| <= 1 <==> forall i, j | 0 <= i < j < |os| :: !(os[i].0 in g && os[j].0 in g)
  {
    if |both| <= 1 {
      forall i, j | 0 <= i < j < |os| ensures !(os[i].0 in g && os[j].0 in g) {
        if os[i].0 in both {
          assert |both - {os[i].0}| == 0;
          assert os[j].0 !in both - {os[i].0};
        }
      }
    } else {
      var a :| a in both;
      assert both - {a} != {} by {
        assert |both - {a}| == |both| - 1;
      }
      var b :| b in both - {a};
      var i :| 0 <= i < |os| && os[i].0 == a;
      var j :| 0 <= j < |os| && os[j].0 == b;
      assert i < j || j < i;
    }
  }

  // ---- parsers that walk over trailing options ----

  /** Which slot each option fills; the last one given wins. */
  function Collect(slots: map<string, string>, switches: set<string>, args: seq<string>, found: Options): Option<Options>
    decreases |args|
  {
    if args == [] then Some(found)
    else if args[0] in slots then
      if |args| < 2 then None else Collect(slots, switches, args[2..], found[slots[args[0]] := Value(args[1])])
    else if args[0] in switches then Collect(slots, switches, args[1..], found[args[0] := Flag])
    else None
  }

  /** The loop of `parse_connection_transport_args`, `parse_connection_xhttp_extra_args` and
      `parse_trojan_connection_update_args`. */
  method CollectOptions(slots: map<string, string>, switches: set<string>, args: seq<string>) returns (r: Option<Options>)
    ensures r == Collect(slots, switches, args, map[])
  {
    var index, found := 0, map[];
    while index < |args|
      invariant index <= |args|
      invariant Collect(slots, switches, args, map[]) == Collect(slots, switches, args[index..], found)
    {
      var item := args[index];
      ghost var rest := args[index..];
      assert rest[0] == item && rest[1..] == args[index + 1..];
      if item in slots {
        if index + 1 >= |args| {
          return None;
        }
        assert rest[1] == args[index + 1] && rest[2..] == args[index + 2..];
        found := found[slots[item] := Value(args[index + 1])];
        index := index + 2;
      } else if item in switches {
        found := found[item := Flag];
        index := index + 1;
      } else {
        return None;
      }
    }
    r := Some(found);
  }

  /** No other given option fills the same slot. */
  predicate Alone(slots: map<string, string>, options: Options, o: string) {
    forall p | p in options && p in slots && o in slots && slots[p] == slots[o] :: p == o
  }

  /** A slot holds the value of an option that was given for it. */
  predicate Filled(slots: map<string, string>, options: Options, found: Options, slot: string) {
    slot in found && exists p | p in options && p in slots :: slots[p] == slot && found[slot] == options[p]
  }

  /** What was collected is what was given, up to options that share a slot. */
  ghost predicate Agree(slots: map<string, string>, switches: set<string>, options: Options, found: Options) {
    && (forall o | o in options && o in slots :: Filled(slots, options, found, slots[o]))
    && (forall k | k in found && k !in switches :: Filled(slots, options, found, k))
    && (forall o | o in switches :: (o in options <==> o in found) && (o in options ==> options[o] == found[o]))
  }

  lemma AgreeAlone(slots: map<string, string>, switches: set<string>, options: Options, found: Options, o: string)
    requires Agree(slots, switches, options, found) && o in options && o in slots && Alone(slots, options, o)
    ensures slots[o] in found && found[slots[o]] == options[o]
  {
    assert Filled(slots, options, found, slots[o]);
  }

  lemma AgreeValue(slots: map<string, string>, switches: set<string>, options: Options, found: Options, o: string, g: Given)
    requires Agree(slots, switches, options, found) && o in slots && o !in options
    requires switches !! slots.Keys && switches !! slots.Values
    ensures Agree(slots, switches, options[o := g], found[slots[o] := g])
  {
    var options', found' := options[o := g], found[slots[o] := g];
    forall k | k in found && k !in switches && Filled(slots, options, found, k) ensures Filled(slots, options', found', k) {
      if k == slots[o] {
        assert o in options' && found'[k] == options'[o];
      } else {
        var p :| p in options && p in slots && slots[p] == k && found[k] == options[p];
        assert p in options' && found'[k] == options'[p];
      }
    }
    assert Filled(slots, options', found', slots[o]) by {
      assert o in options' && found'[slots[o]] == options'[o];
    }
    forall q | q in options' && q in slots ensures Filled(slots, options', found', slots[q]) {
      if q != o {
        assert Filled(slots, options, found, slots[q]);
      }
    }
  }

  lemma AgreeSwitch(slots: map<string, string>, switches: set<string>, options: Options, found: Options, o: string)
    requires Agree(slots, switches, options, found) && o in switches && o !in options
    requires switches !! slots.Keys && switches !! slots.Values
    ensures Agree(slots, switches, options[o := Flag], found[o := Flag])
  {
    var options', found' := options[o := Flag], found[o := Flag];
    forall k | k in found && k !in switches && Filled(slots, options, found, k) ensures Filled(slots, options', found', k) {
      var p :| p in options && p in slots && slots[p] == k && found[k] == options[p];
      assert p in options' && found'[k] == options'[p];
    }
    forall q | q in options' && q in slots ensures Filled(slots, options', found', slots[q]) {
      assert Filled(slots, options, found, slots[q]);
    }
  }

  /** Once an option has been seen, a form without interspersed positionals accepts options only, and the loop
      collects them. */
  lemma {:induction false} WalkCollects(f: Form, slots: map<string, string>, args: seq<string>, positional: seq<string>,
                                        options: Options, found: Options)
    requires !f.interspersed && f.values == slots.Keys && f.switches !! slots.Keys && f.switches !! slots.Values
    requires Walk(f, args, positional, options, true).Some?
    requires Agree(slots, f.switches, options, found)
    ensures var s := Walk(f, args, positional, options, true).value;
            && s.positional == positional
            && Collect(slots, f.switches, args, found).Some?
            && Agree(slots, f.switches, s.options, Collect(slots, f.switches, args, found).value)
    decreases |args|
  {
    if args != [] {
      var arg := args[0];
      if arg in f.values {
        AgreeValue(slots, f.switches, options, found, arg, Value(args[1]));
        WalkCollects(f, slots, args[2..], positional, options[arg := Value(args[1])], found[slots[arg] := Value(args[1])]);
      } else {
        AgreeSwitch(slots, f.switches, options, found, arg);
        WalkCollects(f, slots, args[1..], positional, options[arg := Flag], found[arg := Flag]);
      }
    }
  }

  lemma {:induction false} PositionalsGrow(f: Form, args: seq<string>, positional: seq<string>, options: Options, seen: bool)
    requires Walk(f, args, positional, options, seen).Some?
    ensures positional <= Walk(f, args, positional, options, seen).value.positional
    decreases |args|
  {
    if args != [] {
      var arg := args[0];
      if arg in f.values {
        PositionalsGrow(f, args[2..], positional, options[arg := Value(args[1])], true);
      } else if arg in f.switches {
        PositionalsGrow(f, args[1..], positional, options[arg := Flag], true);
      } else {
        PositionalsGrow(f, args[1..], positional + [arg], options, seen);
      }
    }
  }

  /** A form with `n` leading arguments and no others: they come first, and options follow. */
  lemma {:induction false} LeadingFirst(f: Form, args: seq<string>, positional: seq<string>)
    requires |positional| <= f.leading == f.minimum && f.maximum == Some(f.leading)
    requires var s := Walk(f, args, positional, map[], false); s.Some? && Fits(f, s.value)
    ensures var n := f.leading - |positional|;
            var s := Walk(f, args, positional, map[], false).value;
            && n <= |args| && s.positional == positional + args[..n]
            && Walk(f, args[n..], s.positional, map[], true) == Some(s)
    decreases |args|
  {
    if |positional| < f.leading {
      LeadingFirst(f, args[1..], positional + [args[0]]);
      var n := f.leading - |positional|;
      assert args[1..][..n - 1] == args[1..n] && args[1..][n - 1..] == args[n..];
      assert args[..n] == [args[0]] + args[1..n];
    } else {
      PositionalsGrow(f, args, positional, map[], false);
      assert args[0..] == args && positional + [] == positional;
      if args != [] && args[0] !in f.values && args[0] !in f.switches {
        PositionalsGrow(f, args[1..], positional + [args[0]], map[], false);
      }
    }
  }

  /** Leading positionals, then options: the common shape of these parsers. */
  function ParseTrailing(n: nat, slots: map<string, string>, switches: set<string>, args: seq<string>): Option<Shape> {
    if |args| < n then None
    else
      match Collect(slots, switches, args[n..], map[])
      case None => None
      case Some(found) => Some(Shape(args[..n], found))
  }

  lemma TrailingAccepts(f: Form, slots: map<string, string>, args: seq<string>)
    requires !f.interspersed && f.values == slots.Keys && f.switches !! slots.Keys && f.switches !! slots.Values
    requires f.leading == f.minimum && f.maximum == Some(f.leading) && Check(f, args).Some?
    ensures var s, p := Check(f, args).value, ParseTrailing(f.leading, slots, f.switches, args);
            && p.Some? && p.value.positional == s.positional && |args| >= f.leading
            && Agree(slots, f.switches, s.options, p.value.options)
            && (s.options != map[] ==> |args| > f.leading)
  {
    LeadingFirst(f, args, []);
    var s := Check(f, args).value;
    assert [] + args[..f.leading] == args[..f.leading];
    WalkCollects(f, slots, args[f.leading..], s.positional, map[], map[]);
  }

  /** Where every option has a slot of its own name, parser and form see the same. */
  lemma SameNames(slots: map<string, string>, switches: set<string>, options: Options, found: Options)
    requires (forall o | o in slots :: slots[o] == o) && switches !! slots.Keys
    requires Agree(slots, switches, options, found) && options.Keys <= slots.Keys + switches
    ensures found == options
  {
    forall o | o in options ensures o in found && found[o] == options[o] {
      if o in slots {
        AgreeAlone(slots, switches, options, found, o);
      }
    }
    forall k | k in found ensures k in options {
      if k !in switches {
        assert Filled(slots, options, found, k);
      }
    }
  }

  lemma {:induction false} OptionsAreKnown(f: Form, args: seq<string>, positional: seq<string>, options: Options, seen: bool)
    requires Walk(f, args, positional, options, seen).Some? && options.Keys <= f.values + f.switches
    ensures Walk(f, args, positional, options, seen).value.options.Keys <= f.values + f.switches
    decreases |args|
  {
    if args != [] {
      var arg := args[0];
      if arg in f.values {
        OptionsAreKnown(f, args[2..], positional, options[arg := Value(args[1])], true);
      } else if arg in f.switches {
        OptionsAreKnown(f, args[1..], positional, options[arg := Flag], true);
      } else {
        OptionsAreKnown(f, args[1..], positional + [arg], options, seen);
      }
    }
  }

  // ---- connection-transport ----

  const XHTTP := {"--grpc-service-name", "--xhttp-path", "--xhttp-mode", "--xhttp-extra-json"}
  const TRANSPORT_FORM := Form(2, Some(2), {}, XHTTP, [], {}, false, 2)

  function OwnSlots(values: set<string>): map<string, string> {
    map o | o in values :: o
  }

  /** `parse_connection_transport_args`: on what the form accepts it gives what the form saw. */
  method ParseConnectionTransportArgs(args: seq<string>) returns (r: Option<Shape>)
    ensures r == ParseTrailing(2, OwnSlots(XHTTP), {}, args)
    ensures Check(TRANSPORT_FORM, args).Some? ==> r == Check(TRANSPORT_FORM, args)
  {
    if Check(TRANSPORT_FORM, args).Some? {
      TransportRefines(args);
    }
    if |args| < 2 {
      return None;
    }
    var found := CollectOptions(OwnSlots(XHTTP), {}, args[2..]);
    r := if found.Some? then Some(Shape(args[..2], found.value)) else None;
  }

  lemma TransportRefines(args: seq<string>)
    requires Check(TRANSPORT_FORM, args).Some?
    ensures ParseTrailing(2, OwnSlots(XHTTP), {}, args) == Check(TRANSPORT_FORM, args)
  {
    var f := TRANSPORT_FORM;
    TrailingAccepts(f, OwnSlots(XHTTP), args);
    OptionsAreKnown(f, args, [], map[], false);
    SameNames(OwnSlots(XHTTP), {}, Check(f, args).value.options, ParseTrailing(2, OwnSlots(XHTTP), {}, args).value.options);
  }

  // ---- connection-xhttp-extra ----

  const CLEAR := "--clear-xhttp-extra"
  const EXTRA := "--xhttp-extra-json"
  const EXTRA_FORM := Form(1, Some(1), {CLEAR}, {EXTRA}, [{CLEAR, EXTRA}], {}, false, 1)

  function ParseExtra(args: seq<string>): Option<Shape> {
    if |args| < 2 then None
    else
      match ParseTrailing(1, OwnSlots({EXTRA}), {CLEAR}, args)
      case None => None
      case Some(s) => if (CLEAR in s.options) == (EXTRA in s.options) then None else Some(s)
  }

  /** `parse_connection_xhttp_extra_args`: exactly one of the two options, as the form saw it. */
  method ParseConnectionXhttpExtraArgs(args: seq<string>) returns (r: Option<Shape>)
    ensures r == ParseExtra(args)
    ensures var s := Check(EXTRA_FORM, args); s.Some? && s.value.options != map[] ==> r == s
  {
    if Check(EXTRA_FORM, args).Some? && Check(EXTRA_FORM, args).value.options != map[] {
      ExtraRefines(args);
    }
    if |args| < 2 {
      return None;
    }
    var found := CollectOptions(OwnSlots({EXTRA}), {CLEAR}, args[1..]);
    if found.None? || (CLEAR in found.value && EXTRA in found.value) {
      return None;
    }
    if CLEAR !in found.value && EXTRA !in found.value {
      return None;
    }
    r := Some(Shape(args[..1], found.value));
  }

  /** `validate` also asks for at least one option. */
  lemma ExtraRefines(args: seq<string>)
    requires Check(EXTRA_FORM, args).Some? && Check(EXTRA_FORM, args).value.options != map[]
    ensures ParseExtra(args) == Check(EXTRA_FORM, args)
  {
    var f := EXTRA_FORM;
    assert CLEAR != EXTRA;
    TrailingAccepts(f, OwnSlots({EXTRA}), args);
    OptionsAreKnown(f, args, [], map[], false);
    var s := Check(f, args).value;
    SameNames(OwnSlots({EXTRA}), {CLEAR}, s.options, ParseTrailing(1, OwnSlots({EXTRA}), {CLEAR}, args).value.options);
    ExclusivePair(f, s);
  }

  lemma ExclusivePair(f: Form, s: Shape)
    requires Fits(f, s) && {CLEAR, EXTRA} in f.exclusive
    ensures !(CLEAR in s.options && EXTRA in s.options)
  {
    if CLEAR in s.options && EXTRA in s.options {
      PairIn(s.options.Keys, CLEAR, EXTRA);
    }
  }

  lemma PairIn(keys: set<string>, a: string, b: string)
    requires a != b && a in keys && b in keys
    ensures |{a, b} * keys| == 2
  {
    assert {a, b} * keys == {a, b};
  }

  // ---- update-trojan-connection ----

  const DOMAIN := "--domain"
  const TLS_DOMAIN := "--tls-domain"
  const UPDATE_VALUES := {DOMAIN, TLS_DOMAIN, "--local-port", "--public-port", "--ws-path", "--fingerprint",
                          "--tls-min-version", "--tls-max-version"}
  const UPDATE_FORM := Form(1, Some(1), {}, UPDATE_VALUES, [], {}, false, 1)

  /** The two spellings of the domain share a slot. */
  function UpdateSlots(): map<string, string> {
    map o | o in UPDATE_VALUES :: if o == TLS_DOMAIN then DOMAIN else o
  }

  function ParseUpdate(args: seq<string>): Option<Shape> {
    if |args| < 2 then None
    else
      match ParseTrailing(1, UpdateSlots(), {}, args)
      case None => None
      case Some(s) => if s.options == map[] then None else Some(s)
  }

  /** `parse_trojan_connection_update_args`: the form's result, except for a domain that was given twice. */
  method ParseTrojanConnectionUpdateArgs(args: seq<string>) returns (r: Option<Shape>)
    ensures r == ParseUpdate(args)
    ensures var s := Check(UPDATE_FORM, args);
            s.Some? && s.value.options != map[] ==>
              && r.Some? && r.value.positional == s.value.positional
              && (Delivered(s.value.options, r.value.options) <==> !TwoDomainsGiven(s.value.options))
  {
    if Check(UPDATE_FORM, args).Some? && Check(UPDATE_FORM, args).value.options != map[] {
      UpdateRefines(args);
    }
    if |args| < 2 {
      return None;
    }
    var found := CollectOptions(UpdateSlots(), {}, args[1..]);
    if found.None? || found.value == map[] {
      return None;
    }
    r := Some(Shape(args[..1], found.value));
  }

  /** Every given option's value is in its slot. */
  predicate Delivered(options: Options, found: Options) {
    forall o | o in options && o in UpdateSlots() ::
      UpdateSlots()[o] in found && found[UpdateSlots()[o]] == options[o]
  }

  /** Both spellings of the domain, with different values. */
  predicate TwoDomainsGiven(options: Options) {
    DOMAIN in options && TLS_DOMAIN in options && options[DOMAIN] != options[TLS_DOMAIN]
  }

  /** Everything that was checked is accepted, and every value arrives exactly unless the domain was given twice, in
      both spellings, with different values: then one of the two is dropped without a word. */
  lemma UpdateRefines(args: seq<string>)
    requires Check(UPDATE_FORM, args).Some? && Check(UPDATE_FORM, args).value.options != map[]
    ensures var s, p := Check(UPDATE_FORM, args).value, ParseUpdate(args);
            && p.Some? && p.value.positional == s.positional
            && (Delivered(s.options, p.value.options) <==> !TwoDomainsGiven(s.options))
  {
    var f, slots := UPDATE_FORM, UpdateSlots();
    TrailingAccepts(f, slots, args);
    OptionsAreKnown(f, args, [], map[], false);
    var s, p := Check(f, args).value, ParseTrailing(1, slots, {}, args).value;
    var o :| o in s.options;
    assert Filled(slots, s.options, p.options, slots[o]);
    SharedSlot(s.options, p.options);
  }

  const BOTH_DOMAINS := ["name", DOMAIN, "a", TLS_DOMAIN, "b"]
  const TWO_DOMAINS: Options := map[DOMAIN := Value("a"), TLS_DOMAIN := Value("b")]
  const SECOND_DOMAIN: Options := map[DOMAIN := Value("b")]

  /** An argv with both spellings: the form sees two domains, ... */
  lemma FormSeesTwoDomains()
    ensures Check(UPDATE_FORM, BOTH_DOMAINS) == Some(Shape(["name"], TWO_DOMAINS))
  {
    var f, args, first := UPDATE_FORM, BOTH_DOMAINS, map[DOMAIN := Value("a")];
    assert args[1..][2..] == [TLS_DOMAIN, "b"] && [TLS_DOMAIN, "b"][2..] == [];
    assert first[TLS_DOMAIN := Value("b")] == TWO_DOMAINS;
    assert Walk(f, [TLS_DOMAIN, "b"], ["name"], first, true) == Some(Shape(["name"], TWO_DOMAINS));
    assert Walk(f, args[1..], ["name"], map[], false) == Walk(f, [TLS_DOMAIN, "b"], ["name"], first, true);
    assert "name"[..2][0] == 'n' && [] + ["name"] == ["name"];
    assert Walk(f, args, [], map[], false) == Walk(f, args[1..], ["name"], map[], false);
  }

  /** ... the parser keeps the second. */
  lemma ParserKeepsSecondDomain()
    ensures ParseUpdate(BOTH_DOMAINS) == Some(Shape(["name"], SECOND_DOMAIN))
  {
    var slots, args, first := UpdateSlots(), BOTH_DOMAINS, map[DOMAIN := Value("a")];
    assert args[1..][2..] == [TLS_DOMAIN, "b"] && [TLS_DOMAIN, "b"][2..] == [] && args[..1] == ["name"];
    assert DOMAIN in slots && TLS_DOMAIN in slots && slots[DOMAIN] == DOMAIN && slots[TLS_DOMAIN] == DOMAIN;
    assert first[DOMAIN := Value("b")] == SECOND_DOMAIN;
    assert Collect(slots, {}, [TLS_DOMAIN, "b"], first) == Some(SECOND_DOMAIN);
    assert Collect(slots, {}, args[1..], map[]) == Collect(slots, {}, [TLS_DOMAIN, "b"], first);
    assert DOMAIN in SECOND_DOMAIN;
  }

  lemma SharedSlot(options: Options, found: Options)
    requires Agree(UpdateSlots(), {}, options, found)
    ensures Delivered(options, found) <==> !TwoDomainsGiven(options)
  {
    var slots := UpdateSlots();
    assert DOMAIN in slots && TLS_DOMAIN in slots && slots[DOMAIN] == DOMAIN && slots[TLS_DOMAIN] == DOMAIN;
    assert forall o | o in slots && o != TLS_DOMAIN :: slots[o] == o;
    forall o | o in options && o in slots && (slots[o] != DOMAIN || !(DOMAIN in options && TLS_DOMAIN in options))
      ensures slots[o] in found && found[slots[o]] == options[o]
    {
      AgreeAlone(slots, {}, options, found, o);
    }
    if DOMAIN in options && TLS_DOMAIN in options {
      assert Filled(slots, options, found, slots[DOMAIN]);
    }
  }

  // ---- disable, enable, link, rotate-trojan-password ----

  const CONNECTION := "--connection"
  const CONNECTION_FORM := Form(1, Some(1), {}, {CONNECTION}, [], {}, false, 1)

  /** `rest.index(option)`; the length when it is absent. */
  function IndexOf(args: seq<string>, option: string): (i: nat)
    ensures i <= |args| && (i < |args| ==> args[i] == option) && option !in args[..i]
  {
    if args == [] || args[0] == option then 0
    else
      var i := 1 + IndexOf(args[1..], option);
      assert args[..i] == [args[0]] + args[1..][..i - 1];
      i
  }

  /** Takes the first occurrence of an option and its value out of the list; None when the value is missing. */
  function Pull(args: seq<string>, option: string): Option<(Option<string>, seq<string>)> {
    var i := IndexOf(args, option);
    if i == |args| then Some((None, args))
    else if i + 1 == |args| then None
    else Some((Some(args[i + 1]), args[..i] + args[i + 2..]))
  }

  /** `parse_name_connection_args`: the name and the connection. */
  function ParseNameConnection(args: seq<string>): Option<(string, Option<string>)> {
    if args == [] then None
    else
      match Pull(args[1..], CONNECTION)
      case None => None
      case Some((tag, rest)) => if rest == [] then Some((args[0], tag)) else None
  }

  function ValueOf(options: Options, o: string): Option<string> {
    if o in options && options[o].Value? then Some(options[o].text) else None
  }

  lemma NameConnectionRefines(args: seq<string>)
    requires Check(CONNECTION_FORM, args).Some?
    ensures var s := Check(CONNECTION_FORM, args).value;
            |s.positional| == 1 && ParseNameConnection(args) == Some((s.positional[0], ValueOf(s.options, CONNECTION)))
  {
    var f := CONNECTION_FORM;
    LeadingFirst(f, args, []);
    var rest, s := args[1..], Check(f, args).value;
    assert [] + args[..1] == [args[0]];
    if rest != [] {
      assert rest[0] == CONNECTION && |rest| >= 2;
      assert Walk(f, rest[2..], s.positional, map[CONNECTION := Value(rest[1])], true) == Some(s);
      assert rest[2..] == [];
      assert IndexOf(rest, CONNECTION) == 0;
      assert rest[..0] + rest[2..] == [];
    }
  }

  // ---- add ----

  const PROTOCOL := "--protocol"
  const PAYMENT := "--payment"
  const ADD_FORM := Form(1, Some(2), {}, {CONNECTION, PROTOCOL, PAYMENT}, [{CONNECTION, PROTOCOL}], {}, true, 1)

  /** The name, the days, and the three options. */
  datatype AddArgs = AddArgs(name: string, days: Option<string>, connection: Option<string>, protocol: Option<string>,
                             payment: Option<string>)

  /** `parse_add_args`, up to the checks of the values themselves. */
  function ParseAdd(args: seq<string>): Option<AddArgs> {
    if args == [] then None
    else
      match Pull(args[1..], CONNECTION)
      case None => None
      case Some((connection, rest1)) =>
        match Pull(rest1, PROTOCOL)
        case None => None
        case Some((protocol, rest2)) =>
          if connection.Some? && connection.value != "" && protocol.Some? then None
          else
            match Pull(rest2, PAYMENT)
            case None => None
            case Some((payment, rest)) =>
              if |rest| > 1 then None
              else Some(AddArgs(args[0], if rest == [] then None else Some(rest[0]), connection, protocol, payment))
  }

  /** In an interspersed form without switches it does not matter whether an option has been seen. */
  lemma {:induction false} SeenDoesNotMatter(f: Form, args: seq<string>, positional: seq<string>, options: Options, seen: bool)
    requires f.interspersed
    ensures Walk(f, args, positional, options, seen) == Walk(f, args, positional, options, true)
    decreases |args|
  {
    if args != [] && args[0] !in f.values && args[0] !in f.switches {
      SeenDoesNotMatter(f, args[1..], positional + [args[0]], options, seen);
    }
  }

  /** An option given before is not given again, and the rest is as if it had not been given. */
  lemma {:induction false} WithoutGiven(f: Form, args: seq<string>, positional: seq<string>, options: Options, seen: bool,
                                        o: string, g: Given)
    requires Dashed(f) && o in f.values && o !in options
    requires Walk(f, args, positional, options[o := g], seen).Some?
    ensures var s := Walk(f, args, positional, options[o := g], seen).value;
            && o !in args && o in s.options && s.options[o] == g
            && Walk(f, args, positional, options, seen) == Some(Shape(s.positional, s.options - {o}))
    decreases |args|
  {
    if args == [] {
      assert options[o := g] - {o} == options;
    } else {
      var arg := args[0];
      if arg in f.values {
        assert options[o := g][arg := Value(args[1])] == options[arg := Value(args[1])][o := g];
        WithoutGiven(f, args[2..], positional, options[arg := Value(args[1])], true, o, g);
        assert args == [arg, args[1]] + args[2..];
      } else if arg in f.switches {
        assert options[o := g][arg := Flag] == options[arg := Flag][o := g];
        WithoutGiven(f, args[1..], positional, options[arg := Flag], true, o, g);
        assert args == [arg] + args[1..];
      } else {
        WithoutGiven(f, args[1..], positional + [arg], options, seen, o, g);
        assert args == [arg] + args[1..];
      }
    }
  }

  /** Pulling an option out of an accepted list finds exactly the value that the form saw, and leaves a list that
      is accepted without it. */
  lemma {:induction false} PullAgrees(f: Form, args: seq<string>, positional: seq<string>, options: Options, o: string)
    requires Dashed(f) && f.interspersed && f.switches == {} && o in f.values && o !in options
    requires |positional| >= f.leading && Walk(f, args, positional, options, true).Some?
    ensures var s, p := Walk(f, args, positional, options, true).value, Pull(args, o);
            && p.Some? && p.value.0 == ValueOf(s.options, o) && (o in s.options <==> p.value.0.Some?)
            && Walk(f, p.value.1, positional, options, true) == Some(Shape(s.positional, s.options - {o}))
            && |p.value.1| <= |args|
    decreases |args|
  {
    if args == [] {
      assert options - {o} == options;
    } else if args[0] == o {
      WithoutGiven(f, args[2..], positional, options, true, o, Value(args[1]));
      assert args[..0] + args[2..] == args[2..];
    } else if args[0] in f.values {
      PullAgrees(f, args[2..], positional, options[args[0] := Value(args[1])], o);
      PullPast(args, o);
    } else {
      PullAgrees(f, args[1..], positional + [args[0]], options, o);
      PullPastOne(args, o);
    }
  }

  lemma PullPastOne(args: seq<string>, o: string)
    requires args != [] && args[0] != o && Pull(args[1..], o).Some?
    ensures Pull(args, o) == Some((Pull(args[1..], o).value.0, [args[0]] + Pull(args[1..], o).value.1))
  {
    var i := IndexOf(args[1..], o);
    if i < |args[1..]| {
      assert args[..i + 1] == [args[0]] + args[1..][..i];
      assert args[1..][i + 1] == args[i + 2] && args[1..][i + 2..] == args[i + 3..];
      assert [args[0]] + args[1..][..i] + args[i + 3..] == [args[0]] + (args[1..][..i] + args[i + 3..]);
    } else {
      assert args == [args[0]] + args[1..];
    }
  }

  lemma PullPast(args: seq<string>, o: string)
    requires |args| >= 2 && args[0] != o && args[1] != o && Pull(args[2..], o).Some?
    ensures Pull(args, o) == Some((Pull(args[2..], o).value.0, [args[0], args[1]] + Pull(args[2..], o).value.1))
  {
    assert args[1..][1..] == args[2..];
    PullPastOne(args[1..], o);
    PullPastOne(args, o);
    assert [args[0]] + ([args[1]] + Pull(args[2..], o).value.1) == [args[0], args[1]] + Pull(args[2..], o).value.1;
  }

  /** With no options left, the list is the positionals. */
  lemma {:induction false} OnlyPositionals(f: Form, args: seq<string>, positional: seq<string>, options: Options)
    requires f.switches == {} && Walk(f, args, positional, options, true).Some?
    requires Walk(f, args, positional, options, true).value.options == map[]
    ensures Walk(f, args, positional, options, true).value.positional == positional + args
    decreases |args|
  {
    if args == [] {
      assert positional + args == positional;
    } else if args[0] in f.values {
      var more := options[args[0] := Value(args[1])];
      assert args[0] in more.Keys;
      OptionsGrow(f, args[2..], positional, more, true);
    } else {
      OnlyPositionals(f, args[1..], positional + [args[0]], options);
      assert positional + args == positional + [args[0]] + args[1..];
    }
  }

  lemma {:induction false} OptionsGrow(f: Form, args: seq<string>, positional: seq<string>, options: Options, seen: bool)
    requires Walk(f, args, positional, options, seen).Some?
    ensures options.Keys <= Walk(f, args, positional, options, seen).value.options.Keys
    decreases |args|
  {
    if args != [] {
      var arg := args[0];
      if arg in f.values {
        OptionsGrow(f, args[2..], positional, options[arg := Value(args[1])], true);
      } else if arg in f.switches {
        OptionsGrow(f, args[1..], positional, options[arg := Flag], true);
      } else {
        OptionsGrow(f, args[1..], positional + [arg], options, seen);
      }
    }
  }

  /** `add`: wherever its options stand, parser and form see the same name, days and values. */
  lemma AddRefines(args: seq<string>)
    requires Check(ADD_FORM, args).Some?
    ensures var s := Check(ADD_FORM, args).value;
            && 1 <= |s.positional| <= 2
            && ParseAdd(args) == Some(AddArgs(s.positional[0],
                                              if |s.positional| == 2 then Some(s.positional[1]) else None,
                                              ValueOf(s.options, CONNECTION), ValueOf(s.options, PROTOCOL),
                                              ValueOf(s.options, PAYMENT)))
  {
    var f, s := ADD_FORM, Check(ADD_FORM, args).value;
    var name, rest := args[0], args[1..];
    SeenDoesNotMatter(f, rest, [name], map[], false);
    assert [] + [name] == [name];
    OptionsAreKnown(f, args, [], map[], false);
    AddPulls(rest, name, s);
    AddExclusive(s);
  }

  lemma AddPulls(rest: seq<string>, name: string, s: Shape)
    requires Walk(ADD_FORM, rest, [name], map[], true) == Some(s) && s.options.Keys <= {CONNECTION, PROTOCOL, PAYMENT}
    ensures var c := Pull(rest, CONNECTION);
            && c.Some? && c.value.0 == ValueOf(s.options, CONNECTION) && (CONNECTION in s.options <==> c.value.0.Some?)
            && var p := Pull(c.value.1, PROTOCOL);
               && p.Some? && p.value.0 == ValueOf(s.options, PROTOCOL) && (PROTOCOL in s.options <==> p.value.0.Some?)
               && var m := Pull(p.value.1, PAYMENT);
                  m.Some? && m.value.0 == ValueOf(s.options, PAYMENT) && s.positional == [name] + m.value.1
  {
    var f := ADD_FORM;
    AddIsDashed();
    PullAgrees(f, rest, [name], map[], CONNECTION);
    var rest1 := Pull(rest, CONNECTION).value.1;
    PullAgrees(f, rest1, [name], map[], PROTOCOL);
    var rest2 := Pull(rest1, PROTOCOL).value.1;
    PullAgrees(f, rest2, [name], map[], PAYMENT);
    assert s.options - {CONNECTION} - {PROTOCOL} - {PAYMENT} == map[];
    OnlyPositionals(f, Pull(rest2, PAYMENT).value.1, [name], map[]);
  }

  lemma AddIsDashed()
    ensures Dashed(ADD_FORM)
  {}

  lemma AddExclusive(s: Shape)
    requires Fits(ADD_FORM, s)
    ensures !(CONNECTION in s.options && PROTOCOL in s.options)
  {
    assert {CONNECTION, PROTOCOL} in ADD_FORM.exclusive;
    if CONNECTION in s.options && PROTOCOL in s.options {
      PairIn(s.options.Keys, CONNECTION, PROTOCOL);
    }
  }
}
