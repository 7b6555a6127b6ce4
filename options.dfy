/**
 * The `Option` class hierarchy of `JCmdLineParser`: one datatype for an
 * option definition, a closed set of value kinds in place of the
 * Boolean/Integer/Long/Double/String subclasses, the values they produce, and
 * the exceptions a parse can throw.
 */
module Options {
  import opened Wrappers
  import opened Decimal

  newtype Int32 = x: int | -0x8000_0000 <= x < 0x8000_0000
  newtype Int64 = x: int | -0x8000_0000_0000_0000 <= x < 0x8000_0000_0000_0000

  /** One constructor per subclass of `Option`. */
  datatype Kind = BooleanKind | IntegerKind | LongKind | DoubleKind | StringKind

  /**
   * An option definition: an optional one-character short form, a long form,
   * and the kind that fixes how its values are read.
   */
  datatype CmdOption = CmdOption(shortForm: Option<char>, longForm: string, kind: Kind) {
    /** Only the Boolean subclass passes `false` for `requiresValue`. */
    predicate RequiresValue() {
      kind != BooleanKind
    }
  }

  /** The typed values the options produce. A double is its IEEE 754 bit pattern. */
  datatype Value =
    | BoolVal(b: bool)
    | IntVal(i: Int32)
    | LongVal(l: Int64)
    | DoubleVal(bits: bv64)
    | StringVal(s: string)

  /** `v` is what an option of kind `k` produces (the `T` of `Option<T>`). */
  predicate HasKind(v: Value, k: Kind) {
    match v
    case BoolVal(_) => k == BooleanKind
    case IntVal(_) => k == IntegerKind
    case LongVal(_) => k == LongKind
    case DoubleVal(_) => k == DoubleKind
    case StringVal(_) => k == StringKind
  }

  /**
   * The exceptions, with their payload fields. `UnknownSuboption` and
   * `NotFlag` carry the whole bundled token as their option name, as their
   * Java classes pass it to the `UnknownOptionException` they extend.
   */
  datatype OptionError =
    | UnknownOption(optionName: string)
    | UnknownSuboption(optionName: string, suboption: char)
    | NotFlag(optionName: string, optionChar: char)
    | IllegalOptionValue(option: CmdOption, value: string)

  /**
   * The locale's `NumberFormat` followed by `doubleValue()`: None where it
   * throws `ParseException`. It is supplied by the caller, together with the
   * locale it stands for.
   */
  type NumberFormat = string -> Option<bv64>

  /** `getDefaultValue`: what an option that takes no value records. */
  function DefaultValue(o: CmdOption): (v: Value)
    requires !o.RequiresValue()
    ensures HasKind(v, o.kind)
    ensures v == BoolVal(true)
  {
    BoolVal(true)
  }

  /** `parseValue` of each subclass: reads the raw text of a value. */
  function ParseValue(o: CmdOption, arg: string, format: NumberFormat): (r: Result<Value, OptionError>)
    ensures r.Ok? ==> HasKind(r.value, o.kind)
    ensures r.Err? ==> r.error == IllegalOptionValue(o, arg)
    ensures o.kind == StringKind ==> r == Ok(StringVal(arg))
    ensures o.kind == BooleanKind ==> r == Ok(BoolVal(true))
    ensures o.kind == DoubleKind ==>
              r == (if format(arg).Some? then Ok(DoubleVal(format(arg).value)) else Err(IllegalOptionValue(o, arg)))
    ensures o.kind == IntegerKind ==>
              (r.Ok? <==> IsDecimalLiteral(arg) && Int32Min <= LiteralValue(arg) <= Int32Max)
    ensures o.kind == IntegerKind && r.Ok? ==> r.value == IntVal(LiteralValue(arg) as Int32)
    ensures o.kind == LongKind ==>
              (r.Ok? <==> IsDecimalLiteral(arg) && Int64Min <= LiteralValue(arg) <= Int64Max)
    ensures o.kind == LongKind && r.Ok? ==> r.value == LongVal(LiteralValue(arg) as Int64)
  {
    match o.kind
    case BooleanKind => Ok(BoolVal(true))
    case IntegerKind =>
      (match ParseDecimal(arg, Int32Min, Int32Max)
       case Some(n) => Ok(IntVal(n as Int32))
       case None => Err(IllegalOptionValue(o, arg)))
    case LongKind =>
      (match ParseDecimal(arg, Int64Min, Int64Max)
       case Some(n) => Ok(LongVal(n as Int64))
       case None => Err(IllegalOptionValue(o, arg)))
    case DoubleKind =>
      (match format(arg)
       case Some(d) => Ok(DoubleVal(d))
       case None => Err(IllegalOptionValue(o, arg)))
    case StringKind => Ok(StringVal(arg))
  }

  /**
   * `getValue`: an option that requires a value reads `arg`, and a missing
   * one (`null`) is an illegal value reported as the empty text; any other
   * option yields its default and ignores `arg`.
   */
  function GetValue(o: CmdOption, arg: Option<string>, format: NumberFormat): (r: Result<Value, OptionError>)
    ensures r.Ok? ==> HasKind(r.value, o.kind)
    ensures r.Err? ==> r.error == IllegalOptionValue(o, if arg.Some? then arg.value else "")
    ensures !o.RequiresValue() ==> r == Ok(BoolVal(true))
    ensures o.RequiresValue() && arg.None? ==> r == Err(IllegalOptionValue(o, ""))
    ensures o.RequiresValue() && arg.Some? ==> r == ParseValue(o, arg.value, format)
  {
    if o.RequiresValue() then
      if arg.None? then Err(IllegalOptionValue(o, "")) else ParseValue(o, arg.value, format)
    else
      Ok(DefaultValue(o))
  }

  /** An Integer option reads back exactly the 32-bit numbers, and a Long option the 64-bit ones. */
  lemma IntegerValueRoundTrip(o: CmdOption, n: int, format: NumberFormat)
    requires o.kind == IntegerKind || o.kind == LongKind
    requires o.kind == IntegerKind ==> Int32Min <= n <= Int32Max
    requires o.kind == LongKind ==> Int64Min <= n <= Int64Max
    ensures o.kind == IntegerKind ==> GetValue(o, Some(IntToDecimal(n)), format) == Ok(IntVal(n as Int32))
    ensures o.kind == LongKind ==> GetValue(o, Some(IntToDecimal(n)), format) == Ok(LongVal(n as Int64))
  {
    if o.kind == IntegerKind {
      ParseDecimalRoundTrip(n, Int32Min, Int32Max);
    } else {
      ParseDecimalRoundTrip(n, Int64Min, Int64Max);
    }
  }

  /**
   * An Integer or Long option rejects, with the raw text as payload, any text
   * that is not a sign followed by digits (the empty text among them) and any
   * number outside the type's range.
   */
  lemma IntegerValueRejects(o: CmdOption, arg: string, format: NumberFormat)
    requires o.kind == IntegerKind || o.kind == LongKind
    requires !IsDecimalLiteral(arg)
             || (o.kind == IntegerKind && !(Int32Min <= LiteralValue(arg) <= Int32Max))
             || (o.kind == LongKind && !(Int64Min <= LiteralValue(arg) <= Int64Max))
    ensures GetValue(o, Some(arg), format) == Err(IllegalOptionValue(o, arg))
  {
  }
}
