/**
 The negotiated review operations, and what can safely be read from their arguments.
 */
module ReviewArguments {
  import opened Wrappers
  import opened ReviewText

  datatype Operation =
    | BindSDD | Capabilities | Finalize | Repair | RetryFinalVerification | Start | Status | Validate

  datatype Metadata = Metadata(
    valueFlags: seq<string>, boolFlags: seq<string>, intFlags: seq<string>, mutates: bool, joinOnTimeout: bool,
    timeoutRetryable: bool, readOnlyFlag: string)

  function MetadataOf(op: Operation): Metadata {
    match op
    case BindSDD =>
      Metadata(["cwd", "change", "lineage", "expected-binding-revision"], [], [], true, true, true, "")
    case Capabilities => Metadata([], [], [], false, false, false, "")
    case Finalize =>
      Metadata(["cwd", "lineage", "validation", "refuter", "evidence", "trace", "result"], ["failed"],
               ["correction-lines"], true, false, false, "")
    case Repair =>
      Metadata(["cwd", "class", "lineage", "expected-revision", "cause", "disposition", "repository-binding", "actor",
                "reason", "maintainer-authorization"], ["preflight"], [], true, true, false, "preflight")
    case RetryFinalVerification =>
      Metadata(["cwd", "predecessor-lineage", "expected-predecessor-revision", "successor-lineage", "incident", "actor",
                "reason", "maintainer-authorization"], [], [], true, true, false, "")
    case Start =>
      Metadata(["cwd", "target", "lineage", "policy", "focus", "base-ref", "projection", "trace"],
               ["committed-only", "workspace-overlay"], [], true, false, false, "")
    case Status =>
      Metadata(["cwd", "lineage", "projection", "base-ref", "base-tree", "gate", "recovery-successor-lineage",
                "recovery-reason", "recovery-actor", "recovery-authorization", "repair-actor", "repair-reason",
                "repair-authorization"], ["workspace-overlay", "action-eligibility", "next-transition"], [],
               false, false, false, "")
    case Validate =>
      Metadata(["cwd", "lineage", "gate", "base-ref", "pre-pr-ci-attestation", "policy", "release-configuration",
                "release-generated", "release-provenance", "release-publication-boundary",
                "release-evidence-freshness"], [], [], false, false, false, "")
  }

  // ----- flag values -----

  datatype FlagKind = ValueFlag | BoolFlag | IntFlag

  // Later lists win, as in the code that fills the shape in this order.
  function KindOfFlag(op: Operation, name: string): Option<FlagKind> {
    var m := MetadataOf(op);
    if name == "h" || name == "help" then Some(BoolFlag)
    else if name in m.intFlags then Some(IntFlag)
    else if name in m.boolFlags then Some(BoolFlag)
    else if name in m.valueFlags || name == "contract" then Some(ValueFlag)
    else None
  }

  /** The kind of every flag: one takes a number, these are switches, and every other declared one, like the
      contract version, takes a value. */
  lemma {:induction false} FlagsAre(op: Operation, name: string)
    ensures KindOfFlag(op, name) == Some(IntFlag) <==> op.Finalize? && name == "correction-lines"
    ensures KindOfFlag(op, name) == Some(BoolFlag) <==>
              || name == "h" || name == "help" || (op.Finalize? && name == "failed") || (op.Repair? && name == "preflight")
              || ((op.Start? || op.Status?) && name == "workspace-overlay") || (op.Start? && name == "committed-only")
              || (op.Status? && (name == "action-eligibility" || name == "next-transition"))
  {
  }
  // No flag is declared twice.
  lemma FlagsAreApart(op: Operation, i: nat)
    requires i < |MetadataOf(op).valueFlags|
    ensures var m := MetadataOf(op);
            var name := m.valueFlags[i];
            name != "h" && name != "help" && name !in m.boolFlags && name !in m.intFlags
  {
  }

  lemma {:induction false} ValueFlagsAre(op: Operation, name: string)
    ensures KindOfFlag(op, name) == Some(ValueFlag) <==> name == "contract" || name in MetadataOf(op).valueFlags
  {
    hide MetadataOf;
    if name in MetadataOf(op).valueFlags {
      var i :| 0 <= i < |MetadataOf(op).valueFlags| && MetadataOf(op).valueFlags[i] == name;
      FlagsAreApart(op, i);
    }
    ContractIsApart(op);
  }

  lemma ContractIsApart(op: Operation)
    ensures "contract" !in MetadataOf(op).boolFlags && "contract" !in MetadataOf(op).intFlags
  {
  }

  predicate ParsesTrue(s: string) {
    s in ["1", "t", "T", "TRUE", "true", "True"]
  }

  predicate ParsesFalse(s: string) {
    s in ["0", "f", "F", "FALSE", "false", "False"]
  }

  const MAX_INT: nat := 9223372036854775807

  function DigitsValue(s: string): Option<nat> {
    if s == "" then Some(0)
    else
      var c := s[|s| - 1];
      if !('0' <= c <= '9') then None
      else
        match DigitsValue(s[..|s| - 1])
        case None => None
        case Some(n) => Some(10 * n + (c as int - '0' as int))
  }

  // A decimal integer that fits 64 bits.
  predicate ParsesInt(s: string) {
    var negative := s != "" && s[0] == '-';
    var digits := if s != "" && (s[0] == '-' || s[0] == '+') then s[1..] else s;
    digits != "" && DigitsValue(digits).Some? && DigitsValue(digits).value <= (if negative then MAX_INT + 1 else MAX_INT)
  }

  // A switch given without a value counts as true, and no value counts as both.
  lemma SwitchesAre(s: string)
    ensures ParsesTrue("true") && ParsesFalse("false") && !(ParsesTrue(s) && ParsesFalse(s))
  {
  }

  // The decimal spelling of a number.
  function Decimal(n: nat): (s: string)
    ensures s != "" && '0' <= s[0] <= '9'
  {
    if n < 10 then [('0' as int + n) as char] else Decimal(n / 10) + [('0' as int + n % 10) as char]
  }

  lemma {:induction false} DecimalIsRead(n: nat)
    ensures DigitsValue(Decimal(n)) == Some(n)
  {
    if n >= 10 {
      DecimalIsRead(n / 10);
      assert Decimal(n)[..|Decimal(n)| - 1] == Decimal(n / 10);
    } else {
      assert Decimal(n)[..0] == "" && DigitsValue("") == Some(0);
    }
  }

  /** A number is accepted exactly when it fits 64 bits, with or without a sign. */
  lemma IntsParseIff(n: nat)
    ensures ParsesInt(Decimal(n)) <==> n < 0x8000_0000_0000_0000
    ensures ParsesInt("+" + Decimal(n)) <==> n < 0x8000_0000_0000_0000
    ensures ParsesInt("-" + Decimal(n)) <==> n <= 0x8000_0000_0000_0000
  {
    hide DigitsValue;
    DecimalIsRead(n);
    assert ("+" + Decimal(n))[1..] == Decimal(n) && ("-" + Decimal(n))[1..] == Decimal(n);
  }

  datatype Token = Token(name: string, value: Option<string>)

  function SplitAtEquals(s: string): (t: Token)
    ensures match t.value case None => t.name == s && '=' !in s
                          case Some(v) => s == t.name + "=" + v && '=' !in t.name
  {
    if s == "" then Token("", None)
    else if s[0] == '=' then Token("", Some(s[1..]))
    else
      var rest := SplitAtEquals(s[1..]);
      Token([s[0]] + rest.name, rest.value)
  }

  function TrimHyphen(s: string): string {
    if s != "" && s[0] == '-' then s[1..] else s
  }

  function TokenOf(arg: string): Token {
    SplitAtEquals(TrimHyphen(TrimHyphen(arg)))
  }

  // Flags end at "--" and at the first positional argument.
  predicate Stops(arg: string) {
    arg == "--" || arg == "" || arg == "-" || arg[0] != '-'
  }

  // How many arguments the first flag takes up, and its value; None when it is malformed.
  function FirstFlag(op: Operation, args: seq<string>): (r: Option<(string, string, nat)>)
    requires args != [] && !Stops(args[0])
    ensures r.Some? ==> 1 <= r.value.2 <= 2 && r.value.2 <= |args|
  {
    var t := TokenOf(args[0]);
    match KindOfFlag(op, t.name)
    case None => None
    case Some(BoolFlag) =>
      if t.value.None? then Some((t.name, "true", 1))
      else if ParsesTrue(t.value.value) || ParsesFalse(t.value.value) then Some((t.name, t.value.value, 1))
      else None
    case Some(k) =>
      if t.value.None? && |args| < 2 then None
      else
        var value := if t.value.None? then args[1] else t.value.value;
        if k == IntFlag && !ParsesInt(value) then None
        else Some((t.name, value, if t.value.None? then 2 else 1))
  }

  // What the arguments say: the last value given for each flag, or None when any flag is malformed.
  function Parsed(op: Operation, args: seq<string>): Option<map<string, string>>
    decreases |args|
  {
    if args == [] || Stops(args[0]) then Some(map[])
    else
      match FirstFlag(op, args)
      case None => None
      case Some((name, value, used)) =>
        match Parsed(op, args[used..])
        case None => None
        case Some(rest) => Some(map[name := value] + rest)
  }

  // What has been read so far, then what the remaining arguments say.
  ghost predicate ScannedTo(op: Operation, args: seq<string>, index: nat, values: map<string, string>)
    requires index <= |args|
  {
    Parsed(op, args) == match Parsed(op, args[index..])
                        case None => None
                        case Some(rest) => Some(values + rest)
  }

  lemma ScanStarts(op: Operation, args: seq<string>)
    ensures ScannedTo(op, args, 0, map[])
  {
    assert args[0..] == args;
    assert forall rest: map<string, string> :: map[] + rest == rest;
  }

  lemma ScanSteps(op: Operation, args: seq<string>, index: nat, values: map<string, string>)
    requires index < |args| && !Stops(args[index]) && ScannedTo(op, args, index, values)
    ensures FirstFlag(op, args[index..]).None? ==> Parsed(op, args).None?
    ensures FirstFlag(op, args[index..]).Some? ==>
              var f := FirstFlag(op, args[index..]).value;
              index + f.2 <= |args| && ScannedTo(op, args, index + f.2, values[f.0 := f.1])
  {
    hide FirstFlag;
    if FirstFlag(op, args[index..]).Some? {
      var f := FirstFlag(op, args[index..]).value;
      assert args[index..][f.2..] == args[index + f.2..];
      assert forall rest: map<string, string> :: values + (map[f.0 := f.1] + rest) == values[f.0 := f.1] + rest;
    }
  }

  /** The argument scan as the code writes it: one index loop that fills a map, later values replacing
      earlier ones, and gives up at the first malformed flag. */
  method SafeArguments(op: Operation, args: seq<string>) returns (values: map<string, string>, valid: bool)
    ensures valid == Parsed(op, args).Some?
    ensures valid ==> values == Parsed(op, args).value
  {
    hide KindOfFlag, MetadataOf, ParsesTrue, ParsesFalse, ParsesInt, TokenOf;
    values, valid := map[], true;
    var index := 0;
    ScanStarts(op, args);
    while index < |args|
      invariant 0 <= index <= |args|
      invariant valid && ScannedTo(op, args, index, values)
    {
      var arg := args[index];
      ghost var here := args[index..];
      if Stops(arg) {
        assert values + map[] == values;
        return;
      }
      ScanSteps(op, args, index, values);
      var t := TokenOf(arg);
      var kind := KindOfFlag(op, t.name);
      if kind.None? { return values, false; }
      var value := "true";
      if kind.value.BoolFlag? {
        if t.value.Some? {
          value := t.value.value;
          if !ParsesTrue(value) && !ParsesFalse(value) { return values, false; }
        }
      } else {
        if t.value.None? {
          if index + 1 >= |args| { return values, false; }
          index := index + 1;
          value := args[index];
        } else {
          value := t.value.value;
        }
        if kind.value.IntFlag? && !ParsesInt(value) { return values, false; }
      }
      values := values[t.name := value];
      index := index + 1;
      assert FirstFlag(op, here) == Some((t.name, value, |here| - (|args| - index)));
    }
    assert args[index..] == [] && values + map[] == values;
  }

  // ----- what a failure may name -----

  function LineageFlag(op: Operation): string {
    if op == RetryFinalVerification then "predecessor-lineage" else "lineage"
  }

  // The lineage a failure may safely name: empty unless the arguments are well formed and give a valid one.
  function SafeLineage(op: Operation, args: seq<string>): string {
    var p := Parsed(op, args);
    if p.Some? && LineageFlag(op) in p.value && ValidLineage(p.value[LineageFlag(op)])
    then p.value[LineageFlag(op)] else ""
  }

  // Whether this invocation may change authority.
  function MayMutate(op: Operation, args: seq<string>): bool {
    var m := MetadataOf(op);
    if !m.mutates then false
    else if m.readOnlyFlag == "" then true
    else
      var p := Parsed(op, args);
      p.None? || m.readOnlyFlag !in p.value || !ParsesTrue(p.value[m.readOnlyFlag])
  }

  // `value` was given for flag `name` by some argument: inline, or for a boolean flag by its presence, or for
  // any other flag as the next argument.
  ghost predicate GivenBy(op: Operation, args: seq<string>, name: string, value: string) {
    exists i :: 0 <= i < |args| && GivenAt(op, args, i, name, value)
  }

  ghost predicate GivenAt(op: Operation, args: seq<string>, i: nat, name: string, value: string)
    requires i < |args|
  {
    && args[i] != "" && args[i][0] == '-' && TokenOf(args[i]).name == name
    && match TokenOf(args[i]).value
       case Some(v) => v == value
       case None => if KindOfFlag(op, name) == Some(BoolFlag) then value == "true" else i + 1 < |args| && args[i + 1] == value
  }

  lemma {:induction false} GivenLater(op: Operation, args: seq<string>, from: nat, name: string, value: string)
    requires from <= |args| && GivenBy(op, args[from..], name, value)
    ensures GivenBy(op, args, name, value)
  {
    hide TokenOf;
    var rest := args[from..];
    var i :| 0 <= i < |rest| && GivenAt(op, rest, i, name, value);
    assert rest[i] == args[i + from];
    assert GivenAt(op, args, i + from, name, value);
  }

  lemma FirstIsGiven(op: Operation, args: seq<string>)
    requires args != [] && !Stops(args[0]) && FirstFlag(op, args).Some?
    ensures GivenAt(op, args, 0, FirstFlag(op, args).value.0, FirstFlag(op, args).value.1)
  {
    hide TokenOf, MetadataOf, KindOfFlag, ParsesTrue, ParsesFalse, ParsesInt;
  }

  // Nothing is invented: every value the scan reports was given on the command line.
  lemma {:induction false} ParsedFromArguments(op: Operation, args: seq<string>, name: string)
    requires Parsed(op, args).Some? && name in Parsed(op, args).value
    ensures GivenBy(op, args, name, Parsed(op, args).value[name])
    decreases |args|
  {
    hide FirstFlag, GivenAt;
    FirstIsGiven(op, args);
    var f := FirstFlag(op, args).value;
    var rest := Parsed(op, args[f.2..]).value;
    if name in rest {
      ParsedFromArguments(op, args[f.2..], name);
      GivenLater(op, args, f.2, name, rest[name]);
    }
  }

  /** An operation that changes authority is treated as read-only only when every flag is well formed and
      a repair was asked, in so many words, for a preflight. */
  lemma {:induction false} ReadOnlyOnlyByRequest(op: Operation, args: seq<string>)
    requires MetadataOf(op).mutates && !MayMutate(op, args)
    ensures op == Repair && exists v :: ParsesTrue(v) && GivenBy(op, args, "preflight", v)
  {
    ParsedFromArguments(op, args, "preflight");
  }
}
