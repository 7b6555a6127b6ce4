/**
 * What one call of `JCmdLineParser.parse` computes, as functions over the
 * tokens not yet consumed: the values recorded per long form, the remaining
 * (positional) arguments, and the exception that stopped the scan, if any.
 * The imperative `parse` in module Parser is proved to compute exactly this.
 */
module Grammar {
  import opened Wrappers
  import opened Options
  import opened Registry

  /** The recorded values, keyed by the long form of the option that produced them. */
  type Values = map<string, seq<Value>>

  /** What a scan leaves behind; on an exception `values` holds what was recorded before it. */
  datatype Outcome = Outcome(values: Values, remaining: seq<string>, error: Option<OptionError>)

  predicate IsDash(tok: string) {
    |tok| > 0 && tok[0] == '-'
  }

  predicate IsLong(tok: string) {
    |tok| >= 2 && tok[0] == '-' && tok[1] == '-'
  }

  /** A single-dash token of three or more characters: a bundle of short flags. */
  predicate IsBundle(tok: string) {
    IsDash(tok) && !IsLong(tok) && |tok| > 2
  }

  /** The values recorded so far for `key`, none when it has no entry. */
  function Prior(vals: Values, key: string): seq<Value> {
    if key in vals then vals[key] else []
  }

  /** `addValue` after a successful `getValue`: append `v` to the list of `key`, creating it if absent. */
  function Record(vals: Values, key: string, v: Value): (r: Values)
    ensures r.Keys == vals.Keys + {key}
    ensures r[key] == Prior(vals, key) + [v]
    ensures forall k :: k in vals && k != key ==> r[k] == vals[k]
  {
    vals[key := Prior(vals, key) + [v]]
  }

  /** `String.indexOf(char)`: the first position of `c` in `s`. */
  function IndexOf(s: string, c: char): (r: Option<nat>)
    ensures r.Some? ==> r.value < |s| && s[r.value] == c && c !in s[..r.value]
    ensures r.None? ==> c !in s
    decreases |s|
  {
    if s == [] then None
    else if s[0] == c then Some(0)
    else
      match IndexOf(s[1..], c)
      case None => None
      case Some(i) =>
        assert s[..i + 1] == [s[0]] + s[1..][..i];
        Some(i + 1)
  }

  /**
   * Splits a `--` token at its first `=` into the spelling and the inline
   * value; a token without `=` is all spelling.
   */
  function SplitLong(tok: string): (r: (string, Option<string>))
    ensures '=' !in r.0
    ensures r.1.None? ==> r.0 == tok
    ensures r.1.Some? ==> tok == r.0 + "=" + r.1.value
  {
    match IndexOf(tok, '=')
    case None => (tok, None)
    case Some(i) =>
      assert tok == tok[..i] + "=" + tok[i + 1..];
      (tok[..i], Some(tok[i + 1..]))
  }

  /** The spelling to look up and the inline value of a non-bundle dash token. */
  function SplitToken(tok: string): (r: (string, Option<string>))
    ensures !IsLong(tok) ==> r == (tok, None)
    ensures IsLong(tok) ==> '=' !in r.0 && (r.1.None? ==> r.0 == tok)
    ensures IsLong(tok) && r.1.Some? ==> tok == r.0 + "=" + r.1.value
  {
    if IsLong(tok) then SplitLong(tok) else (tok, None)
  }

  /**
   * The inner loop over a bundle `tok`, from character `i` on: each character
   * must be the short form of an option that takes no value; the first that
   * is not stops the scan with the values recorded so far.
   */
  function Flags(reg: Registry, tok: string, i: nat, vals: Values): (r: (Values, Option<OptionError>))
    requires i <= |tok|
    ensures vals.Keys <= r.0.Keys
    ensures r.1.Some? ==> (r.1.value.UnknownSuboption? || r.1.value.NotFlag?) && r.1.value.optionName == tok
    decreases |tok| - i
  {
    if i == |tok| then (vals, None)
    else
      var key := ShortKey(tok[i]);
      if key !in reg then (vals, Some(UnknownSuboption(tok, tok[i])))
      else if reg[key].RequiresValue() then (vals, Some(NotFlag(tok, tok[i])))
      else Flags(reg, tok, i + 1, Record(vals, reg[key].longForm, DefaultValue(reg[key])))
  }

  /** The loop of `parse` over the unconsumed tokens `toks`. */
  function Scan(reg: Registry, toks: seq<string>, vals: Values, rest: seq<string>, format: NumberFormat): (r: Outcome)
    ensures rest <= r.remaining
    ensures forall t :: t in r.remaining ==> t in rest || t in toks
    ensures vals.Keys <= r.values.Keys
    decreases |toks|
  {
    if toks == [] then Outcome(vals, rest, None)
    else
      var tok := toks[0];
      if !IsDash(tok) then Scan(reg, toks[1..], vals, rest + [tok], format)
      else if tok == "--" then Outcome(vals, rest + toks[1..], None)
      else if IsBundle(tok) then
        var (vals', err) := Flags(reg, tok, 1, vals);
        if err.Some? then Outcome(vals', rest, err) else Scan(reg, toks[1..], vals', rest, format)
      else
        var (name, inline) := SplitToken(tok);
        if name !in reg then Outcome(vals, rest, Some(UnknownOption(name)))
        else
          var o := reg[name];
          var takesNext := o.RequiresValue() && inline.None? && |toks| > 1;
          var arg := if !o.RequiresValue() then None
                     else if inline.Some? then inline
                     else if |toks| > 1 then Some(toks[1])
                     else None;
          match GetValue(o, arg, format)
          case Err(e) => Outcome(vals, rest, Some(e))
          case Ok(v) => Scan(reg, toks[if takesNext then 2 else 1..], Record(vals, o.longForm, v), rest, format)
  }

  /** A whole `parse`: no values and no remaining arguments to begin with. */
  function ParseArgs(reg: Registry, args: seq<string>, format: NumberFormat): (r: Outcome)
    ensures forall t :: t in r.remaining ==> t in args
  {
    Scan(reg, args, map[], [], format)
  }

  // ---------------------------------------------------------------------
  // Positional arguments and the terminator

  /** Tokens without a leading dash go to the remaining arguments, in order. */
  lemma {:induction false} PositionalPrefix(reg: Registry, pre: seq<string>, post: seq<string>,
                                            vals: Values, rest: seq<string>, format: NumberFormat)
    requires forall i :: 0 <= i < |pre| ==> !IsDash(pre[i])
    ensures Scan(reg, pre + post, vals, rest, format) == Scan(reg, post, vals, rest + pre, format)
    decreases |pre|
  {
    if pre == [] {
      assert pre + post == post && rest + pre == rest;
    } else {
      assert (pre + post)[0] == pre[0];
      assert (pre + post)[1..] == pre[1..] + post;
      assert Scan(reg, pre + post, vals, rest, format) == Scan(reg, pre[1..] + post, vals, rest + [pre[0]], format);
      PositionalPrefix(reg, pre[1..], post, vals, rest + [pre[0]], format);
      assert rest + [pre[0]] + pre[1..] == rest + pre;
    }
  }

  /** The first `--` is dropped and every later token is kept verbatim, unlooked-up. */
  lemma TerminatorKeepsTail(reg: Registry, post: seq<string>, vals: Values, rest: seq<string>, format: NumberFormat)
    ensures Scan(reg, ["--"] + post, vals, rest, format) == Outcome(vals, rest + post, None)
  {
  }

  /** A parse of positional tokens, `--`, then anything: no values, all other tokens remain. */
  lemma TerminatorAfterPositionals(reg: Registry, pre: seq<string>, post: seq<string>, format: NumberFormat)
    requires forall i :: 0 <= i < |pre| ==> !IsDash(pre[i])
    ensures ParseArgs(reg, pre + ["--"] + post, format) == Outcome(map[], pre + post, None)
  {
    assert pre + ["--"] + post == pre + (["--"] + post);
    PositionalPrefix(reg, pre, ["--"] + post, map[], [], format);
    TerminatorKeepsTail(reg, post, map[], pre, format);
  }

  // ---------------------------------------------------------------------
  // Long forms with an inline value

  /** `--name=v` records what `--name v` records, for an option that takes a value. */
  lemma InlineValueSameAsNextToken(reg: Registry, name: string, v: string, tail: seq<string>,
                                   vals: Values, rest: seq<string>, format: NumberFormat)
    requires IsLong(name) && |name| > 2 && '=' !in name
    requires name in reg && reg[name].RequiresValue()
    ensures Scan(reg, [name + "=" + v] + tail, vals, rest, format) ==
            Scan(reg, [name, v] + tail, vals, rest, format)
  {
    var tok := name + "=" + v;
    SplitAtFirstEquals(name, v);
    assert ([tok] + tail)[1..] == tail;
    assert ([name, v] + tail)[2..] == tail;
  }

  /** For an option that takes no value, `--name=v` is `--name`: the inline value is ignored. */
  lemma InlineValueIgnoredByFlag(reg: Registry, name: string, v: string, tail: seq<string>,
                                 vals: Values, rest: seq<string>, format: NumberFormat)
    requires IsLong(name) && |name| > 2 && '=' !in name
    requires name in reg && !reg[name].RequiresValue()
    ensures Scan(reg, [name + "=" + v] + tail, vals, rest, format) ==
            Scan(reg, [name] + tail, vals, rest, format)
  {
    var tok := name + "=" + v;
    SplitAtFirstEquals(name, v);
    assert ([tok] + tail)[1..] == tail;
    assert ([name] + tail)[1..] == tail;
  }

  /** A long token splits at its first `=`, whatever the value contains. */
  lemma SplitAtFirstEquals(name: string, v: string)
    requires IsLong(name) && '=' !in name
    ensures SplitToken(name + "=" + v).0 == name
    ensures SplitToken(name + "=" + v).1 == Some(v)
  {
    var tok := name + "=" + v;
    var i := IndexOf(tok, '=');
    assert tok[|name|] == '=';
    assert i.Some?;
    assert tok[..|name|] == name;
    assert i.value == |name|;
    assert tok[|name| + 1..] == v;
    assert IsLong(tok);
  }

  // ---------------------------------------------------------------------
  // Bundles of short flags

  /** `c` is the short form of an option that takes no value. */
  predicate IsFlag(reg: Registry, c: char) {
    ShortKey(c) in reg && !reg[ShortKey(c)].RequiresValue()
  }

  predicate AllFlags(reg: Registry, cs: string) {
    forall i :: 0 <= i < |cs| ==> IsFlag(reg, cs[i])
  }

  /** Records `true` for the flag of each character of `cs`, left to right. */
  function RecordFlags(reg: Registry, cs: string, vals: Values): Values
    requires AllFlags(reg, cs)
    decreases |cs|
  {
    if cs == [] then vals
    else RecordFlags(reg, cs[1..], Record(vals, reg[ShortKey(cs[0])].longForm, BoolVal(true)))
  }

  /** The exception for the first character of a bundle that is not a flag. */
  function BadFlag(reg: Registry, tok: string, c: char): OptionError {
    if ShortKey(c) !in reg then UnknownSuboption(tok, c) else NotFlag(tok, c)
  }

  lemma {:induction false} FlagsRecordAll(reg: Registry, tok: string, i: nat, vals: Values)
    requires i <= |tok| && AllFlags(reg, tok[i..])
    ensures Flags(reg, tok, i, vals) == (RecordFlags(reg, tok[i..], vals), None)
    decreases |tok| - i
  {
    if i < |tok| {
      var o := reg[ShortKey(tok[i])];
      assert tok[i..][0] == tok[i] && tok[i..][1..] == tok[i + 1..];
      assert IsFlag(reg, tok[i..][0]);
      FlagsRecordAll(reg, tok, i + 1, Record(vals, o.longForm, BoolVal(true)));
    }
  }

  lemma {:induction false} FlagsStopAtBad(reg: Registry, tok: string, i: nat, k: nat, vals: Values)
    requires i <= k < |tok| && AllFlags(reg, tok[i..k]) && !IsFlag(reg, tok[k])
    ensures Flags(reg, tok, i, vals) == (RecordFlags(reg, tok[i..k], vals), Some(BadFlag(reg, tok, tok[k])))
    decreases k - i
  {
    if i < k {
      var o := reg[ShortKey(tok[i])];
      assert tok[i..k][0] == tok[i] && tok[i..k][1..] == tok[i + 1..k];
      assert IsFlag(reg, tok[i..k][0]);
      FlagsStopAtBad(reg, tok, i + 1, k, Record(vals, o.longForm, BoolVal(true)));
    }
  }

  /** A bundle of flags records `true` once for each character, left to right, and consumes one token. */
  lemma BundleRecordsEachFlag(reg: Registry, tok: string, tail: seq<string>,
                              vals: Values, rest: seq<string>, format: NumberFormat)
    requires IsBundle(tok) && AllFlags(reg, tok[1..])
    ensures Scan(reg, [tok] + tail, vals, rest, format) == Scan(reg, tail, RecordFlags(reg, tok[1..], vals), rest, format)
  {
    FlagsRecordAll(reg, tok, 1, vals);
    assert ([tok] + tail)[1..] == tail;
  }

  /**
   * The first character of a bundle that is unknown, or names an option that
   * takes a value, stops the parse; the flags before it stay recorded.
   */
  lemma BundleStopsAtFirstBadFlag(reg: Registry, tok: string, k: nat, tail: seq<string>,
                                  vals: Values, rest: seq<string>, format: NumberFormat)
    requires IsBundle(tok) && 1 <= k < |tok|
    requires AllFlags(reg, tok[1..k]) && !IsFlag(reg, tok[k])
    ensures Scan(reg, [tok] + tail, vals, rest, format) ==
            Outcome(RecordFlags(reg, tok[1..k], vals), rest, Some(BadFlag(reg, tok, tok[k])))
  {
    FlagsStopAtBad(reg, tok, 1, k, vals);
  }

  /** The tokens `-a`, `-b`, ... for the characters of `cs`. */
  function SeparateFlags(cs: string): (toks: seq<string>)
    ensures |toks| == |cs|
    decreases |cs|
  {
    if cs == [] then [] else [ShortKey(cs[0])] + SeparateFlags(cs[1..])
  }

  /**
   * Any option token that is neither `--` nor a bundle, and whose spelling
   * (the part before a first `=`) names an option taking no value, records
   * `true` for that option once and consumes that one token; an inline value
   * is ignored.
   */
  lemma FlagSpellingStep(reg: Registry, tok: string, tail: seq<string>, vals: Values, rest: seq<string>,
                         format: NumberFormat)
    requires IsDash(tok) && tok != "--" && !IsBundle(tok)
    requires SplitToken(tok).0 in reg && !reg[SplitToken(tok).0].RequiresValue()
    ensures Scan(reg, [tok] + tail, vals, rest, format) ==
            Scan(reg, tail, Record(vals, reg[SplitToken(tok).0].longForm, BoolVal(true)), rest, format)
  {
    assert ([tok] + tail)[0] == tok && ([tok] + tail)[1..] == tail;
  }

  /** A long-form flag token `--name` records `true` once and consumes one token. */
  lemma LongFlagStep(reg: Registry, name: string, tail: seq<string>, vals: Values, rest: seq<string>,
                     format: NumberFormat)
    requires IsLong(name) && |name| > 2 && '=' !in name
    requires name in reg && !reg[name].RequiresValue()
    ensures Scan(reg, [name] + tail, vals, rest, format) ==
            Scan(reg, tail, Record(vals, reg[name].longForm, BoolVal(true)), rest, format)
  {
    assert SplitToken(name).0 == name;
    FlagSpellingStep(reg, name, tail, vals, rest, format);
  }


  /** A single `-c` token for a flag records `true` for it. */
  lemma FlagTokenStep(reg: Registry, c: char, tail: seq<string>, vals: Values, rest: seq<string>, format: NumberFormat)
    requires IsFlag(reg, c) && c != '-'
    ensures Scan(reg, [ShortKey(c)] + tail, vals, rest, format) ==
            Scan(reg, tail, Record(vals, reg[ShortKey(c)].longForm, BoolVal(true)), rest, format)
  {
    var tok := ShortKey(c);
    assert tok == ['-', c];
    assert IsDash(tok) && tok != "--" && !IsLong(tok) && !IsBundle(tok);
    assert SplitToken(tok) == (tok, None);
    assert ([tok] + tail)[0] == tok && ([tok] + tail)[1..] == tail;
  }

  lemma {:induction false} SeparateFlagsRecord(reg: Registry, cs: string, tail: seq<string>,
                                               vals: Values, rest: seq<string>, format: NumberFormat)
    requires AllFlags(reg, cs) && '-' !in cs
    ensures Scan(reg, SeparateFlags(cs) + tail, vals, rest, format) == Scan(reg, tail, RecordFlags(reg, cs, vals), rest, format)
    decreases |cs|
  {
    if cs == [] {
      assert SeparateFlags(cs) + tail == tail;
    } else {
      var tok := ShortKey(cs[0]);
      var o := reg[tok];
      assert IsFlag(reg, cs[0]);
      assert cs[0] in cs;
      assert '-' !in cs[1..];
      assert AllFlags(reg, cs[1..]) by {
        forall i | 0 <= i < |cs[1..]| ensures IsFlag(reg, cs[1..][i]) {
          assert cs[1..][i] == cs[i + 1];
        }
      }
      assert SeparateFlags(cs) + tail == [tok] + (SeparateFlags(cs[1..]) + tail);
      FlagTokenStep(reg, cs[0], SeparateFlags(cs[1..]) + tail, vals, rest, format);
      SeparateFlagsRecord(reg, cs[1..], tail, Record(vals, o.longForm, BoolVal(true)), rest, format);
    }
  }

  /** `-abc` is `-a -b -c` when every character is a flag and none is a dash. */
  lemma BundleIsSeparateFlags(reg: Registry, tok: string, tail: seq<string>,
                              vals: Values, rest: seq<string>, format: NumberFormat)
    requires IsBundle(tok) && AllFlags(reg, tok[1..]) && '-' !in tok[1..]
    ensures Scan(reg, [tok] + tail, vals, rest, format) == Scan(reg, SeparateFlags(tok[1..]) + tail, vals, rest, format)
  {
    BundleRecordsEachFlag(reg, tok, tail, vals, rest, format);
    SeparateFlagsRecord(reg, tok[1..], tail, vals, rest, format);
  }

  // ---------------------------------------------------------------------
  // Unknown spellings and values taken from the next token

  /** A dash token whose spelling is not registered stops the parse, naming that spelling. */
  lemma UnknownSpellingFails(reg: Registry, toks: seq<string>, vals: Values, rest: seq<string>, format: NumberFormat)
    requires toks != [] && IsDash(toks[0]) && toks[0] != "--" && !IsBundle(toks[0])
    requires SplitToken(toks[0]).0 !in reg
    ensures Scan(reg, toks, vals, rest, format) == Outcome(vals, rest, Some(UnknownOption(SplitToken(toks[0]).0)))
  {
  }

  /** A lone `-` is an unknown option in any table built by registration. */
  lemma LoneDashFails(reg: Registry, tail: seq<string>, vals: Values, rest: seq<string>, format: NumberFormat)
    requires Owned(reg)
    ensures Scan(reg, ["-"] + tail, vals, rest, format) == Outcome(vals, rest, Some(UnknownOption("-")))
  {
  }

  /**
   * An option that takes a value and has no inline value takes the next
   * token as its value, whatever that token is (`--` and `-x` included).
   */
  lemma ValueTakesNextToken(reg: Registry, tok: string, next: string, tail: seq<string>,
                            vals: Values, rest: seq<string>, format: NumberFormat)
    requires IsDash(tok) && tok != "--" && !IsBundle(tok)
    requires SplitToken(tok).0 in reg && SplitToken(tok).1.None?
    requires reg[SplitToken(tok).0].RequiresValue()
    ensures var o := reg[SplitToken(tok).0];
            var r := GetValue(o, Some(next), format);
            Scan(reg, [tok, next] + tail, vals, rest, format) ==
            if r.Err? then Outcome(vals, rest, Some(r.error))
            else Scan(reg, tail, Record(vals, o.longForm, r.value), rest, format)
  {
  }

  /** With no token left to take, a value-requiring option is an illegal empty value. */
  lemma MissingValueFails(reg: Registry, tok: string, vals: Values, rest: seq<string>, format: NumberFormat)
    requires IsDash(tok) && tok != "--" && !IsBundle(tok)
    requires SplitToken(tok).0 in reg && SplitToken(tok).1.None?
    requires reg[SplitToken(tok).0].RequiresValue()
    ensures Scan(reg, [tok], vals, rest, format) ==
            Outcome(vals, rest, Some(IllegalOptionValue(reg[SplitToken(tok).0], "")))
  {
  }

  // ---------------------------------------------------------------------
  // Accumulation

  /** Appends `xs` to the list of `key`, one `addValue` per element. */
  function RecordAll(vals: Values, key: string, xs: seq<Value>): Values
    decreases |xs|
  {
    if xs == [] then vals else RecordAll(Record(vals, key, xs[0]), key, xs[1..])
  }

  lemma {:induction false} RecordAllAppends(vals: Values, key: string, xs: seq<Value>)
    ensures Prior(RecordAll(vals, key, xs), key) == Prior(vals, key) + xs
    ensures forall k :: k != key ==> Prior(RecordAll(vals, key, xs), k) == Prior(vals, k)
    decreases |xs|
  {
    if xs != [] {
      RecordAllAppends(Record(vals, key, xs[0]), key, xs[1..]);
      assert Prior(vals, key) + [xs[0]] + xs[1..] == Prior(vals, key) + xs;
    }
  }

  /** The tokens `name=v` for each `v` of `vs`. */
  function InlineTokens(name: string, vs: seq<string>): (toks: seq<string>)
    ensures |toks| == |vs|
    decreases |vs|
  {
    if vs == [] then [] else [name + "=" + vs[0]] + InlineTokens(name, vs[1..])
  }

  function StringVals(vs: seq<string>): (xs: seq<Value>)
    ensures |xs| == |vs|
    decreases |vs|
  {
    if vs == [] then [] else [StringVal(vs[0])] + StringVals(vs[1..])
  }

  /** Repeated `--name=v` occurrences of a String option are recorded one each, in order. */
  lemma {:induction false} RepeatedOccurrencesInOrder(reg: Registry, name: string, vs: seq<string>, tail: seq<string>,
                                                      vals: Values, rest: seq<string>, format: NumberFormat)
    requires IsLong(name) && |name| > 2 && '=' !in name
    requires name in reg && reg[name].kind == StringKind
    ensures Scan(reg, InlineTokens(name, vs) + tail, vals, rest, format) ==
            Scan(reg, tail, RecordAll(vals, reg[name].longForm, StringVals(vs)), rest, format)
    decreases |vs|
  {
    if vs == [] {
      assert InlineTokens(name, vs) + tail == tail;
    } else {
      var tok := name + "=" + vs[0];
      SplitAtFirstEquals(name, vs[0]);
      assert tok[0] == '-' && tok[1] == '-' && |tok| > 2;
      assert (InlineTokens(name, vs) + tail)[0] == tok;
      assert (InlineTokens(name, vs) + tail)[1..] == InlineTokens(name, vs[1..]) + tail;
      assert StringVals(vs)[0] == StringVal(vs[0]) && StringVals(vs)[1..] == StringVals(vs[1..]);
      RepeatedOccurrencesInOrder(reg, name, vs[1..], tail, Record(vals, reg[name].longForm, StringVal(vs[0])), rest, format);
    }
  }

  /** Nothing a parse records is lost or reordered: each list only grows at its end. */
  lemma {:induction false} FlagsOnlyAppend(reg: Registry, tok: string, i: nat, vals: Values, key: string)
    requires i <= |tok|
    ensures Prior(vals, key) <= Prior(Flags(reg, tok, i, vals).0, key)
    decreases |tok| - i
  {
    if i < |tok| {
      var k := ShortKey(tok[i]);
      if k in reg && !reg[k].RequiresValue() {
        var vals' := Record(vals, reg[k].longForm, BoolVal(true));
        FlagsOnlyAppend(reg, tok, i + 1, vals', key);
      }
    }
  }

  lemma {:induction false} ScanOnlyAppends(reg: Registry, toks: seq<string>, vals: Values, rest: seq<string>,
                                           format: NumberFormat, key: string)
    ensures Prior(vals, key) <= Prior(Scan(reg, toks, vals, rest, format).values, key)
    decreases |toks|
  {
    if toks != [] {
      var tok := toks[0];
      if !IsDash(tok) {
        ScanOnlyAppends(reg, toks[1..], vals, rest + [tok], format, key);
      } else if tok == "--" {
      } else if IsBundle(tok) {
        FlagsOnlyAppend(reg, tok, 1, vals, key);
        var vals' := Flags(reg, tok, 1, vals).0;
        ScanOnlyAppends(reg, toks[1..], vals', rest, format, key);
      } else {
        var (name, inline) := SplitToken(tok);
        if name in reg {
          var o := reg[name];
          var takesNext := o.RequiresValue() && inline.None? && |toks| > 1;
          var arg := if !o.RequiresValue() then None
                     else if inline.Some? then inline
                     else if |toks| > 1 then Some(toks[1])
                     else None;
          var r := GetValue(o, arg, format);
          if r.Ok? {
            ScanOnlyAppends(reg, toks[if takesNext then 2 else 1..], Record(vals, o.longForm, r.value), rest, format, key);
          }
        }
      }
    }
  }
}
