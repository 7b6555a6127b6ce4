/**
 * The `JCmdLineParser` object: its option table, the values recorded by the
 * latest `parse`, and the remaining arguments of the latest successful one.
 */
module Parser {
  import opened Wrappers
  import opened Options
  import opened Registry
  import opened Grammar

  class CmdLineParser {
    var options: Registry
    var values: Values
    /** None until a `parse` succeeds (Java's `null` array). */
    var remainingOptions: Option<seq<string>>

    /** Every spelling in the table belongs to the option it leads to. */
    ghost predicate Valid()
      reads this
    {
      Owned(options)
    }

    constructor ()
      ensures Valid()
      ensures options == map[] && values == map[] && remainingOptions == None
    {
      options := map[];
      values := map[];
      remainingOptions := None;
    }

    /** `addOption`: file `option` under its spellings, overwriting whatever was there. */
    method AddOption(option: CmdOption) returns (r: CmdOption)
      requires Valid()
      modifies this`options
      ensures Valid()
      ensures r == option
      ensures options == Register(old(options), option)
    {
      if option.shortForm.Some? {
        options := options[ShortKey(option.shortForm.value) := option];
      }
      options := options[LongKey(option) := option];
      r := option;
    }

    /** `addBooleanOption`, with and without a short form. */
    method AddBooleanOption(shortForm: Option<char>, longForm: string) returns (r: CmdOption)
      requires Valid()
      modifies this`options
      ensures Valid()
      ensures r == CmdOption(shortForm, longForm, BooleanKind)
      ensures options == Register(old(options), r)
    {
      r := AddOption(CmdOption(shortForm, longForm, BooleanKind));
    }

    /** `addIntegerOption`, with and without a short form. */
    method AddIntegerOption(shortForm: Option<char>, longForm: string) returns (r: CmdOption)
      requires Valid()
      modifies this`options
      ensures Valid()
      ensures r == CmdOption(shortForm, longForm, IntegerKind)
      ensures options == Register(old(options), r)
    {
      r := AddOption(CmdOption(shortForm, longForm, IntegerKind));
    }

    /** `addLongOption`, with and without a short form. */
    method AddLongOption(shortForm: Option<char>, longForm: string) returns (r: CmdOption)
      requires Valid()
      modifies this`options
      ensures Valid()
      ensures r == CmdOption(shortForm, longForm, LongKind)
      ensures options == Register(old(options), r)
    {
      r := AddOption(CmdOption(shortForm, longForm, LongKind));
    }

    /** `addDoubleOption`, with and without a short form. */
    method AddDoubleOption(shortForm: Option<char>, longForm: string) returns (r: CmdOption)
      requires Valid()
      modifies this`options
      ensures Valid()
      ensures r == CmdOption(shortForm, longForm, DoubleKind)
      ensures options == Register(old(options), r)
    {
      r := AddOption(CmdOption(shortForm, longForm, DoubleKind));
    }

    /** `addStringOption`, with and without a short form. */
    method AddStringOption(shortForm: Option<char>, longForm: string) returns (r: CmdOption)
      requires Valid()
      modifies this`options
      ensures Valid()
      ensures r == CmdOption(shortForm, longForm, StringKind)
      ensures options == Register(old(options), r)
    {
      r := AddOption(CmdOption(shortForm, longForm, StringKind));
    }

    /**
     * `addValue`: read the value, then append it to the list of the option's
     * long form. When reading throws, nothing is recorded.
     */
    method AddValue(option: CmdOption, valueArg: Option<string>, format: NumberFormat) returns (err: Option<OptionError>)
      modifies this`values
      ensures GetValue(option, valueArg, format).Err? ==>
                err == Some(GetValue(option, valueArg, format).error) && values == old(values)
      ensures GetValue(option, valueArg, format).Ok? ==>
                err == None && values == Record(old(values), option.longForm, GetValue(option, valueArg, format).value)
    {
      var r := GetValue(option, valueArg, format);
      if r.Err? {
        return Some(r.error);
      }
      var longForm := option.longForm;
      if longForm !in values {
        values := values[longForm := []];
      }
      values := values[longForm := values[longForm] + [r.value]];
      err := None;
    }

    /**
     * The inner loop of `parse` over a bundle of short flags such as `-abc`:
     * each character after the dash must be the short form of an option that
     * takes no value, and records that option's default value; the first that
     * is unknown or requires a value throws, keeping what was recorded.
     */
    method AddFlags(bundle: string, format: NumberFormat) returns (err: Option<OptionError>)
      requires |bundle| >= 1
      modifies this`values
      ensures (values, err) == Flags(options, bundle, 1, old(values))
    {
      for i := 1 to |bundle|
        invariant Flags(options, bundle, i, values) == Flags(options, bundle, 1, old(values))
      {
        var key := ShortKey(bundle[i]);
        if key !in options {
          return Some(UnknownSuboption(bundle, bundle[i]));
        }
        var option := options[key];
        if option.RequiresValue() {
          return Some(NotFlag(bundle, bundle[i]));
        }
        var ignored := AddValue(option, None, format);
      }
      err := None;
    }

    /**
     * The body of the loop of `parse` for a dash token other than `--`:
     * a bundle of flags, or one option spelling (with its inline value after
     * `=` for a long form) that may take the next token as its value.
     * Returns the position of the next token to scan.
     */
    method ScanOption(args: seq<string>, position: nat, format: NumberFormat, ghost rest: seq<string>)
        returns (next: nat, err: Option<OptionError>)
      requires position < |args| && IsDash(args[position]) && args[position] != "--"
      modifies this`values
      ensures err.None? ==> position < next <= |args|
      ensures Scan(options, args[position..], old(values), rest, format) ==
              if err.Some? then Outcome(values, rest, err) else Scan(options, args[next..], values, rest, format)
    {
      var curArg := args[position];
      assert args[position..][1..] == args[position + 1..];
      next := position;
      var name := curArg;
      var valueArg: Option<string> := None;
      if IsLong(curArg) {
        var split := SplitLong(curArg);
        name, valueArg := split.0, split.1;
      } else if |curArg| > 2 {
        err := AddFlags(curArg, format);
        return position + 1, err;
      }
      if name !in options {
        return position + 1, Some(UnknownOption(name));
      }
      var option := options[name];
      var arg: Option<string> := None;
      if option.RequiresValue() {
        arg := valueArg;
        if arg.None? {
          next := next + 1;
          if next < |args| {
            arg := Some(args[next]);
            assert args[position..][2..] == args[next + 1..];
          }
        }
      }
      err := AddValue(option, arg, format);
      next := next + 1;
    }

    /**
     * `parse`: the values are reset, then the tokens are scanned left to
     * right. On an exception the values recorded before it stay and the
     * remaining arguments of the previous parse are kept.
     */
    method Parse(args: seq<string>, format: NumberFormat) returns (err: Option<OptionError>)
      modifies this`values, this`remainingOptions
      ensures values == ParseArgs(options, args, format).values
      ensures err == ParseArgs(options, args, format).error
      ensures err.None? ==> remainingOptions == Some(ParseArgs(options, args, format).remaining)
      ensures err.Some? ==> remainingOptions == old(remainingOptions)
    {
      ghost var outcome := ParseArgs(options, args, format);
      var otherOptions: seq<string> := [];
      var position := 0;
      values := map[];
      while position < |args|
        invariant 0 <= position <= |args|
        invariant Scan(options, args[position..], values, otherOptions, format) == outcome
        invariant remainingOptions == old(remainingOptions)
      {
        var curArg := args[position];
        if IsDash(curArg) {
          if curArg == "--" {
            position := position + 1;
            assert Outcome(values, otherOptions + args[position..], None) == outcome;
            break;
          }
          var e;
          position, e := ScanOption(args, position, format, otherOptions);
          if e.Some? {
            err := e;
            return;
          }
        } else {
          assert args[position..][1..] == args[position + 1..];
          otherOptions := otherOptions + [curArg];
          position := position + 1;
        }
      }
      assert Outcome(values, otherOptions + args[position..], None) == outcome;
      while position < |args|
        invariant 0 <= position <= |args|
        invariant Outcome(values, otherOptions + args[position..], None) == outcome
      {
        assert args[position..] == [args[position]] + args[position + 1..];
        otherOptions := otherOptions + [args[position]];
        position := position + 1;
      }
      assert otherOptions + args[position..] == otherOptions;
      remainingOptions := Some(otherOptions);
      err := None;
    }

    /**
     * `getOptionValue(option, def)` as written: `def` when the option was
     * never recorded and otherwise `null`. Its removal is applied to the map
     * of lists with the key `0`, which no entry has, so it takes nothing out
     * and returns `null`.
     */
    method GetOptionValue(option: CmdOption, def: Option<Value>) returns (r: Option<Value>)
      ensures option.longForm !in values ==> r == def
      ensures option.longForm in values ==> r == None
    {
      if option.longForm !in values {
        return def;
      }
      var vs := values[option.longForm];
      if vs == [] {
        return None;
      }
      r := None;
    }

    /**
     * `getOptionValues` as written: its loop stops at the first `null`, and
     * `getOptionValue` with a `null` default returns nothing else, so the
     * collection is always empty and nothing changes.
     */
    method GetOptionValues(option: CmdOption) returns (result: seq<Value>)
      ensures result == []
    {
      result := [];
      var t := GetOptionValue(option, None);
      assert t == None;
    }

    /**
     * `getOptionValue` as evidently intended (`vs.remove(0)`): returns and
     * removes the earliest recorded value of the option; `def` when the
     * option was never recorded, `null` once its list is drained.
     */
    method PollOptionValue(option: CmdOption, def: Option<Value>) returns (r: Option<Value>)
      modifies this`values
      ensures option.longForm !in old(values) ==> r == def && values == old(values)
      ensures option.longForm in old(values) && old(values)[option.longForm] == [] ==>
                r == None && values == old(values)
      ensures option.longForm in old(values) && old(values)[option.longForm] != [] ==>
                r == Some(old(values)[option.longForm][0]) &&
                values == old(values)[option.longForm := old(values)[option.longForm][1..]]
    {
      if option.longForm !in values {
        return def;
      }
      var vs := values[option.longForm];
      if vs == [] {
        return None;
      }
      r := Some(vs[0]);
      values := values[option.longForm := vs[1..]];
    }

    /**
     * `getOptionValues` as evidently intended: drains every recorded value
     * of the option, in the order they were recorded.
     */
    method DrainOptionValues(option: CmdOption) returns (result: seq<Value>)
      modifies this`values
      ensures result == Prior(old(values), option.longForm)
      ensures values == if option.longForm in old(values) then old(values)[option.longForm := []] else old(values)
    {
      var key := option.longForm;
      result := [];
      while true
        invariant key in values <==> key in old(values)
        invariant result + Prior(values, key) == Prior(old(values), key)
        invariant values == if key in old(values) then old(values)[key := values[key]] else old(values)
        decreases |Prior(values, key)|
      {
        var t := PollOptionValue(option, None);
        if t.None? {
          return;
        }
        result := result + [t.value];
      }
    }
  }

  /** `--name=a --name=b` records `a` then `b` for a String option. */
  lemma TwoInlineOccurrences(reg: Registry, name: string, a: string, b: string, format: NumberFormat)
    requires IsLong(name) && |name| > 2 && '=' !in name
    requires name in reg && reg[name].kind == StringKind
    ensures ParseArgs(reg, [name + "=" + a, name + "=" + b], format).error == None
    ensures Prior(ParseArgs(reg, [name + "=" + a, name + "=" + b], format).values, reg[name].longForm) ==
            [StringVal(a), StringVal(b)]
  {
    assert [a, b][1..] == [b] && [b][1..] == [];
    assert InlineTokens(name, [b]) == [name + "=" + b];
    assert [name + "=" + a, name + "=" + b] == InlineTokens(name, [a, b]) + [];
    RepeatedOccurrencesInOrder(reg, name, [a, b], [], map[], [], format);
    assert StringVals([a, b]) == [StringVal(a), StringVal(b)];
    RecordAllAppends(map[], reg[name].longForm, StringVals([a, b]));
  }

  /**
   * Two occurrences `--name=a --name=b` of a String option: as written, the
   * values cannot be read back; as intended, they come back in order.
   */
  method RetrievalDiscrepancy(longForm: string, a: string, b: string, format: NumberFormat)
      returns (asWritten: seq<Value>, intended: seq<Value>)
    requires |longForm| > 0 && '=' !in longForm
    ensures asWritten == []
    ensures intended == [StringVal(a), StringVal(b)]
  {
    var parser := new CmdLineParser();
    var option := parser.AddStringOption(None, longForm);
    var name := LongKey(option);
    assert name[2..] == longForm;
    TwoInlineOccurrences(parser.options, name, a, b, format);
    var err := parser.Parse([name + "=" + a, name + "=" + b], format);
    asWritten := parser.GetOptionValues(option);
    intended := parser.DrainOptionValues(option);
  }
}
