/** Registered options, their validation (base/config/validate.go), and what setting, saving and loading
  does to their values (base/config/set.go, base/config/persistence.go). */
module ConfigStore {
  import opened Common
  import opened ConfigTree
  import opened ConfigMaps

  datatype OptType = StringType | StringArrayType | BoolType

  /** The parts of an option that never change. The compiled regex, the possible values and the
      validation function are oracles; None stands for the ones that are not set. */
  datatype Spec = Spec(
    optType: OptType,
    possible: Option<Data -> bool>,
    regex: Option<string -> bool>,
    check: Option<Data -> bool>)

  /** A validated value; a missing array is Go's nil slice. */
  datatype ValueCache = ValueCache(stringVal: string, arrayVal: Option<seq<string>>, boolVal: bool)

  datatype ValidationError =
    | NotAllowed
    | WrongType
    | NoMatch
    | EntryNoMatch(pos: nat)
    | EntryNotAllowed(pos: nat)
    | EntryNotString(pos: nat)
    | InvalidType
    | Refused

  // ------------------------------------------------------------ validation

  function GetData(spec: Spec, cache: ValueCache): Data {
    match spec.optType
    case BoolType => Bool(cache.boolVal)
    case StringType => Str(cache.stringVal)
    case StringArrayType => match cache.arrayVal { case None => NilStrings case Some(items) => Strings(items) }
  }

  predicate Allowed(spec: Spec, value: Data) {
    spec.possible.Some? ==> spec.possible.value(value)
  }

  predicate Matches(spec: Spec, s: string) {
    spec.regex.Some? ==> spec.regex.value(s)
  }

  /** The last step of every successful path: the validation function has its say. */
  function Checked(spec: Spec, cache: ValueCache): Result<ValueCache, ValidationError> {
    if spec.check.Some? && !spec.check.value(GetData(spec, cache)) then Err(Refused) else Ok(cache)
  }

  /** What is wrong with the entries of a string array from `i` on. */
  function EntryError(spec: Spec, items: seq<string>, i: nat): Option<ValidationError>
    requires i <= |items|
    decreases |items| - i
  {
    if spec.regex.None? || i == |items| then None
    else if !Matches(spec, items[i]) then Some(EntryNoMatch(i + 1))
    else if !Allowed(spec, Str(items[i])) then Some(EntryNotAllowed(i + 1))
    else EntryError(spec, items, i + 1)
  }

  function ValidateArray(spec: Spec, arr: Option<seq<string>>): Result<ValueCache, ValidationError> {
    if spec.optType != StringArrayType then Err(WrongType)
    else
      var error := EntryError(spec, if arr.Some? then arr.value else [], 0);
      if error.Some? then Err(error.value) else Checked(spec, ValueCache("", arr, false))
  }

  /** The strings of a list, or the position of the first entry that is none. */
  function AsStrings(entries: seq<Data>, i: nat): Result<seq<string>, ValidationError>
    requires i <= |entries|
    decreases |entries| - i
  {
    if i == |entries| then Ok([])
    else if !entries[i].Str? then Err(EntryNotString(i + 1))
    else
      match AsStrings(entries, i + 1)
      case Ok(rest) => Ok([entries[i].s] + rest)
      case Err(e) => Err(e)
  }

  lemma {:induction false} AsStringsAll(entries: seq<Data>, items: seq<string>, i: nat)
    requires i <= |entries| == |items|
    requires forall k :: i <= k < |entries| ==> entries[k] == Str(items[k])
    ensures AsStrings(entries, i) == Ok(items[i..])
    decreases |entries| - i
  {
    if i < |entries| {
      AsStringsAll(entries, items, i + 1);
      assert items[i..] == [items[i]] + items[i + 1..];
    } else {
      assert items[i..] == [];
    }
  }

  lemma {:induction false} AsStringsStops(entries: seq<Data>, i: nat, pos: nat)
    requires i <= pos < |entries| && !entries[pos].Str?
    requires forall k :: i <= k < pos ==> entries[k].Str?
    ensures AsStrings(entries, i) == Err(EntryNotString(pos + 1))
    decreases pos - i
  {
    if i < pos {
      AsStringsStops(entries, i + 1, pos);
    }
  }

  function ValidateValue(spec: Spec, value: Data): Result<ValueCache, ValidationError> {
    if spec.optType != StringArrayType && !Allowed(spec, value) then Err(NotAllowed)
    else match value
      case Str(s) =>
        if spec.optType != StringType then Err(WrongType)
        else if !Matches(spec, s) then Err(NoMatch)
        else Checked(spec, ValueCache(s, None, false))
      case List(entries) => (
        match AsStrings(entries, 0)
        case Err(e) => Err(e)
        case Ok(items) =>
          if spec.optType != StringArrayType && !Allowed(spec, Strings(items)) then Err(NotAllowed)
          else
            match ValidateArray(spec, Some(items))
            case Ok(cache) => Checked(spec, cache)
            case Err(e) => Err(e))
      case Strings(items) => ValidateArray(spec, Some(items))
      case NilStrings => ValidateArray(spec, None)
      case Number(_) => Err(WrongType)
      case Bool(b) =>
        if spec.optType != BoolType then Err(WrongType)
        else Checked(spec, ValueCache("", None, b))
      case Null => Err(InvalidType)
  }

  /** A string is accepted, as it is, if and only if the option has the type and its possible values, its regex
      and its validation function all admit the string; the first of them that does not gives the error. */
  lemma StringAcceptedIff(spec: Spec, s: string)
    ensures var r := ValidateValue(spec, Str(s));
      && (r.Ok? <==>
            && spec.optType == StringType
            && (spec.possible.Some? ==> spec.possible.value(Str(s)))
            && (spec.regex.Some? ==> spec.regex.value(s))
            && (spec.check.Some? ==> spec.check.value(Str(s))))
      && (r.Ok? ==> r.value.stringVal == s && r.value.arrayVal.None? && !r.value.boolVal)
      && (r == Err(NotAllowed) <==>
            spec.optType != StringArrayType && spec.possible.Some? && !spec.possible.value(Str(s)))
      && (r == Err(NoMatch) <==>
            && spec.optType == StringType && (spec.possible.Some? ==> spec.possible.value(Str(s)))
            && spec.regex.Some? && !spec.regex.value(s))
  {
  }

  /** The same for a bool, without the regex. */
  lemma BoolAcceptedIff(spec: Spec, b: bool)
    ensures var r := ValidateValue(spec, Bool(b));
      && (r.Ok? <==>
            && spec.optType == BoolType
            && (spec.possible.Some? ==> spec.possible.value(Bool(b)))
            && (spec.check.Some? ==> spec.check.value(Bool(b))))
      && (r.Ok? ==> r.value.boolVal == b && r.value.arrayVal.None? && r.value.stringVal == "")
  {
  }

  /** The entry passes behind a regex. */
  predicate EntryPasses(spec: Spec, entry: string) {
    spec.regex.Some? ==> spec.regex.value(entry) && (spec.possible.Some? ==> spec.possible.value(Str(entry)))
  }

  lemma {:induction false} EntriesPassIff(spec: Spec, items: seq<string>, i: nat)
    requires i <= |items|
    ensures EntryError(spec, items, i).None? <==> forall k :: i <= k < |items| ==> EntryPasses(spec, items[k])
    decreases |items| - i
  {
    if i < |items| && spec.regex.Some? {
      EntriesPassIff(spec, items, i + 1);
    }
  }

  /** A string array, nil or not, is accepted as it is if and only if the option has the type, every entry passes
      the regex and with it the possible values, and the validation function admits the array. */
  lemma ArrayAcceptedIff(spec: Spec, arr: Option<seq<string>>)
    ensures var value := if arr.Some? then Strings(arr.value) else NilStrings; var r := ValidateValue(spec, value);
      && (r.Ok? <==>
            && spec.optType == StringArrayType
            && (spec.regex.Some? && arr.Some? ==>
                  forall i :: 0 <= i < |arr.value| ==>
                    spec.regex.value(arr.value[i]) && (spec.possible.Some? ==> spec.possible.value(Str(arr.value[i]))))
            && (spec.check.Some? ==> spec.check.value(value)))
      && (r.Ok? ==> r.value.arrayVal == arr && r.value.stringVal == "" && !r.value.boolVal)
  {
    var items := if arr.Some? then arr.value else [];
    EntriesPassIff(spec, items, 0);
    if i :| 0 <= i < |items| && !EntryPasses(spec, items[i]) {
      assert !(spec.regex.value(items[i]) && (spec.possible.Some? ==> spec.possible.value(Str(items[i]))));
    } else {
      assert forall i :: 0 <= i < |items| ==> EntryPasses(spec, items[i]);
    }
  }

  /** A list is accepted if and only if all its entries are strings and their array is, with the same result. */
  lemma ListAcceptedIff(spec: Spec, entries: seq<Data>, items: seq<string>)
    requires |items| == |entries| && forall i :: 0 <= i < |entries| && entries[i].Str? ==> entries[i].s == items[i]
    ensures var r := ValidateValue(spec, List(entries)); var converted := ValidateValue(spec, Strings(items));
      && (r.Ok? <==> (forall i :: 0 <= i < |entries| ==> entries[i].Str?) && converted.Ok?)
      && (r.Ok? ==> r == converted)
  {
    if i :| 0 <= i < |entries| && !entries[i].Str? {
      ListRefused(spec, entries, i);
    } else {
      AsStringsAll(entries, items, 0);
      assert items[0..] == items;
    }
  }

  lemma {:induction false} ListRefused(spec: Spec, entries: seq<Data>, pos: nat)
    requires pos < |entries| && !entries[pos].Str?
    ensures ValidateValue(spec, List(entries)).Err?
    decreases pos
  {
    if i :| 0 <= i < pos && !entries[i].Str? {
      ListRefused(spec, entries, i);
    } else {
      AsStringsStops(entries, 0, pos);
    }
  }

  /** validateValue with its two loops. */
  method Validate(spec: Spec, value: Data) returns (r: Result<ValueCache, ValidationError>)
    ensures r == ValidateValue(spec, value)
    ensures value.Str? ==>
              (r.Ok? <==>
                 && spec.optType == StringType
                 && (spec.possible.Some? ==> spec.possible.value(value))
                 && (spec.regex.Some? ==> spec.regex.value(value.s))
                 && (spec.check.Some? ==> spec.check.value(value)))
    ensures value.Bool? ==>
              (r.Ok? <==>
                 && spec.optType == BoolType
                 && (spec.possible.Some? ==> spec.possible.value(value))
                 && (spec.check.Some? ==> spec.check.value(value)))
    ensures value.Strings? ==>
              (r.Ok? <==>
                 && spec.optType == StringArrayType
                 && (spec.regex.Some? ==>
                       forall i :: 0 <= i < |value.items| ==>
                         && spec.regex.value(value.items[i])
                         && (spec.possible.Some? ==> spec.possible.value(Str(value.items[i]))))
                 && (spec.check.Some? ==> spec.check.value(value)))
    ensures value.NilStrings? ==>
              (r.Ok? <==> spec.optType == StringArrayType && (spec.check.Some? ==> spec.check.value(value)))
    ensures value.List? && r.Ok? ==>
              && r.value.arrayVal.Some? && |r.value.arrayVal.value| == |value.entries|
              && forall i :: 0 <= i < |value.entries| ==> value.entries[i] == Str(r.value.arrayVal.value[i])
    ensures value.Number? || value.Null? ==> r.Err?
    ensures r.Ok? ==>
              match value
              case Str(s) => r.value == ValueCache(s, None, false)
              case Bool(b) => r.value == ValueCache("", None, b)
              case Strings(items) => r.value == ValueCache("", Some(items), false)
              case NilStrings => r.value == ValueCache("", None, false)
              case _ => true
    decreases value.List?
  {
    if value.Strings? {
      ArrayAcceptedIff(spec, Some(value.items));
    }
    if spec.optType != StringArrayType && !Allowed(spec, value) {
      return Err(NotAllowed);
    }
    var validated: ValueCache;
    match value {
      case Str(s) =>
        if spec.optType != StringType {
          return Err(WrongType);
        }
        if spec.regex.Some? && !spec.regex.value(s) {
          return Err(NoMatch);
        }
        validated := ValueCache(s, None, false);
      case List(entries) =>
        var converted: seq<string> := [];
        var pos := 0;
        while pos < |entries|
          invariant pos <= |entries|
          invariant |converted| == pos
          invariant forall i :: 0 <= i < pos ==> entries[i] == Str(converted[i])
        {
          if !entries[pos].Str? {
            AsStringsStops(entries, 0, pos);
            return Err(EntryNotString(pos + 1));
          }
          converted := converted + [entries[pos].s];
          pos := pos + 1;
        }
        AsStringsAll(entries, converted, 0);
        assert converted[0..] == converted;
        var again := Validate(spec, Strings(converted));
        if again.Err? {
          return again;
        }
        validated := again.value;
      case Strings(items) =>
        if spec.optType != StringArrayType {
          return Err(WrongType);
        }
        if spec.regex.Some? {
          var pos := 0;
          while pos < |items|
            invariant pos <= |items|
            invariant EntryError(spec, items, 0) == EntryError(spec, items, pos)
          {
            if !spec.regex.value(items[pos]) {
              return Err(EntryNoMatch(pos + 1));
            }
            if !Allowed(spec, Str(items[pos])) {
              return Err(EntryNotAllowed(pos + 1));
            }
            pos := pos + 1;
          }
        }
        validated := ValueCache("", Some(items), false);
      case NilStrings =>
        if spec.optType != StringArrayType {
          return Err(WrongType);
        }
        validated := ValueCache("", None, false);
      case Number(_) =>
        return Err(WrongType);
      case Bool(b) =>
        if spec.optType != BoolType {
          return Err(WrongType);
        }
        validated := ValueCache("", None, b);
      case Null =>
        return Err(InvalidType);
    }
    if spec.check.Some? && !spec.check.value(GetData(spec, validated)) {
      return Err(Refused);
    }
    return Ok(validated);
  }

  /** The cache came out of a validation. */
  ghost predicate Validated(spec: Spec, cache: ValueCache) {
    exists value :: ValidateValue(spec, value) == Ok(cache)
  }

  /** validateValue accepts what getData returns, and the value is the same one. */
  lemma AcceptsOwnData(spec: Spec, value: Data, cache: ValueCache)
    requires ValidateValue(spec, value) == Ok(cache)
    ensures ValidateValue(spec, GetData(spec, cache)) == Ok(cache)
  {
    if value.List? {
      var items := AsStrings(value.entries, 0).value;
      assert ValidateArray(spec, Some(items)) == Ok(cache);
    }
  }

  // --------------------------------------------------------- registration

  /** PossibleValues: which values isAllowedPossibleValue accepts, and how fmt prints the values. */
  datatype Possible = Possible(allows: Data -> bool, printed: seq<string>)

  /** What an option declares; a missing type is the zero OptType, and no regex the empty one. */
  datatype Declared = Declared(
    optType: Option<OptType>,
    possible: Option<Possible>,
    validationRegex: string,
    check: Option<Data -> bool>)

  function Alternatives(printed: seq<string>): string {
    if printed == [] then "" else if |printed| == 1 then printed[0] else printed[0] + "|" + Alternatives(printed[1..])
  }

  /** The regex Register compiles: the declared one, or one made of the possible values. */
  function RegexOf(d: Declared): string {
    if d.validationRegex == "" && d.possible.Some? then "^(" + Alternatives(d.possible.value.printed) + ")$"
    else d.validationRegex
  }

  /** Where a bar stands, one alternative ends. */
  function Pieces(s: string): (pieces: seq<string>)
    ensures pieces != []
  {
    if s == "" then [""]
    else
      var rest := Pieces(s[1..]);
      if s[0] == '|' then [""] + rest else [[s[0]] + rest[0]] + rest[1..]
  }

  lemma {:induction false} PiecesOf(first: string, rest: string)
    requires '|' !in first
    ensures Pieces(first) == [first] && Pieces(first + "|" + rest) == [first] + Pieces(rest)
    decreases first
  {
    if first == "" {
      assert (first + "|" + rest)[1..] == rest;
    } else {
      PiecesOf(first[1..], rest);
      assert (first + "|" + rest)[1..] == first[1..] + "|" + rest;
      assert first == [first[0]] + first[1..];
      assert ([first[1..]] + Pieces(rest))[1..] == Pieces(rest);
    }
  }

  /** The alternatives of the regex made of the possible values are the printed values, one by one. */
  lemma {:induction false} AlternativesArePrinted(printed: seq<string>)
    requires printed != [] && forall i :: 0 <= i < |printed| ==> '|' !in printed[i]
    ensures Pieces(Alternatives(printed)) == printed
    decreases printed
  {
    if |printed| == 1 {
      PiecesOf(printed[0], "");
    } else {
      AlternativesArePrinted(printed[1..]);
      PiecesOf(printed[0], Alternatives(printed[1..]));
    }
  }

  /** The regex is the declared one if there is one; else the possible values make one that takes one of them from
      the start of the text to its end. */
  lemma RegexIs(d: Declared)
    ensures d.validationRegex != "" || d.possible.None? ==> RegexOf(d) == d.validationRegex
    ensures d.validationRegex == "" && d.possible.Some? ==>
              var n := |RegexOf(d)|;
              && n >= 4 && RegexOf(d)[..2] == "^(" && RegexOf(d)[n - 2..] == ")$"
              && RegexOf(d)[2..n - 2] == Alternatives(d.possible.value.printed)
  {
  }

  /** The option as validation sees it, unless its type is missing or its regex does not compile; `compile`
      stands for regexp.Compile. */
  function SpecOf(d: Declared, compile: string -> Option<string -> bool>): Option<Spec> {
    if d.optType.None? || (RegexOf(d) != "" && compile(RegexOf(d)).None?) then None
    else Some(Spec(
      d.optType.value,
      if d.possible.Some? then Some(d.possible.value.allows) else None,
      if RegexOf(d) == "" then None else compile(RegexOf(d)),
      d.check))
  }

  /** Validation checks the entries of a string array only behind a regex. */
  predicate Enforces(spec: Spec) {
    spec.possible.Some? ==> spec.regex.Some?
  }

  /** Every option that can be registered with possible values has a regex. */
  lemma RegisteredEnforces(d: Declared, compile: string -> Option<string -> bool>)
    requires SpecOf(d, compile).Some?
    ensures Enforces(SpecOf(d, compile).value)
  {
    if d.possible.Some? && d.validationRegex == "" {
      assert RegexOf(d)[0] == '^';
    }
  }

  /** The value, or every entry of the array, is a possible value. */
  predicate IsAllowed(spec: Spec, cache: ValueCache) {
    match spec.optType
    case StringArrayType =>
      cache.arrayVal.Some? ==> forall i :: 0 <= i < |cache.arrayVal.value| ==> Allowed(spec, Str(cache.arrayVal.value[i]))
    case _ => Allowed(spec, GetData(spec, cache))
  }

  lemma {:induction false} EntriesAllowed(spec: Spec, items: seq<string>, i: nat)
    requires i <= |items| && spec.regex.Some? && EntryError(spec, items, i).None?
    ensures forall k :: i <= k < |items| ==> Allowed(spec, Str(items[k])) && Matches(spec, items[k])
    decreases |items| - i
  {
    if i < |items| {
      EntriesAllowed(spec, items, i + 1);
    }
  }

  /** What a registered option accepts is among its possible values, entry by entry for an array. */
  lemma AcceptedIsAllowed(spec: Spec, cache: ValueCache)
    requires Enforces(spec) && Validated(spec, cache)
    ensures IsAllowed(spec, cache)
  {
    var value :| ValidateValue(spec, value) == Ok(cache);
    AcceptsOwnData(spec, value, cache);
    if spec.optType == StringArrayType && cache.arrayVal.Some? && spec.possible.Some? {
      EntriesAllowed(spec, cache.arrayVal.value, 0);
    }
  }

  /** Without the regex it would not be: a string array is then accepted with any entries. */
  lemma NoRegexNoCheck(items: seq<string>)
    ensures var spec := Spec(StringArrayType, Some((d: Data) => false), None, None);
      ValidateValue(spec, Strings(items)).Ok? && (items != [] ==> !IsAllowed(spec, ValidateValue(spec, Strings(items)).value))
  {
    var spec := Spec(StringArrayType, Some((d: Data) => false), None, None);
    if items != [] {
      assert !Allowed(spec, Str(items[0]));
    }
  }

  // ------------------------------------------------------------------ JSON

  /** What encoding a value as JSON and decoding it again makes of it. */
  function Json(d: Data): Data {
    match d
    case Strings(items) => List(seq(|items|, i requires 0 <= i < |items| => Str(items[i])))
    case NilStrings => Null
    case List(entries) => List(seq(|entries|, i requires 0 <= i < |entries| => Json(entries[i])))
    case Null => d
    case Str(_) => d
    case Bool(_) => d
    case Number(_) => d
  }

  function JsonNode(t: Node): Node {
    match t
    case Leaf(v) => Leaf(Json(v))
    case Section(es) => Section(map k | k in es :: JsonNode(es[k]))
  }

  function JsonTree(config: Sections): Sections {
    JsonNode(Section(config)).entries
  }

  function JsonOpt(d: Option<Data>): Option<Data> {
    match d { case Some(v) => Some(Json(v)) case None => None }
  }

  lemma {:induction false} JsonLookup(t: Node, p: Path)
    ensures Lookup(JsonNode(t), p) == JsonOpt(Lookup(t, p))
    decreases p
  {
    if t.Section? && p != [] && p[0] in t.entries {
      JsonLookup(t.entries[p[0]], p[1..]);
    }
  }

  lemma {:induction false} JsonSlashFree(t: Node)
    ensures SlashFreeNames(JsonNode(t)) == SlashFreeNames(t)
  {
    if t.Section? {
      forall k | k in t.entries ensures SlashFreeNames(JsonNode(t.entries[k])) == SlashFreeNames(t.entries[k]) {
        JsonSlashFree(t.entries[k]);
      }
      assert JsonNode(t).entries.Keys == t.entries.Keys;
    }
  }

  /** A stored value comes back from its JSON form, except a nil string array: that one is saved as
      null, which is no valid value. */
  lemma JsonRoundTrip(spec: Spec, cache: ValueCache)
    requires Validated(spec, cache)
    ensures ValidateValue(spec, Json(GetData(spec, cache))) ==
              if spec.optType == StringArrayType && cache.arrayVal.None? then Err(InvalidType) else Ok(cache)
  {
    var value :| ValidateValue(spec, value) == Ok(cache);
    AcceptsOwnData(spec, value, cache);
    if spec.optType == StringArrayType && cache.arrayVal.Some? {
      var items := cache.arrayVal.value;
      AsStringsAll(Json(Strings(items)).entries, items, 0);
      assert items[0..] == items;
    }
  }

  // --------------------------------------------------- setting and loading

  /** What an option holds after a config with this value for it replaced the old one. */
  function LoadedAt(spec: Spec, value: Option<Data>): Option<ValueCache> {
    match value
    case None => None
    case Some(v) => match ValidateValue(spec, v) { case Ok(cache) => Some(cache) case Err(_) => None }
  }

  function ErrorAt(spec: Spec, value: Option<Data>): Option<ValidationError> {
    match value
    case None => None
    case Some(v) => match ValidateValue(spec, v) { case Ok(_) => None case Err(e) => Some(e) }
  }

  /** The error reported for an option. */
  function Reported(errors: map<string, ValidationError>, key: string): Option<ValidationError> {
    if key in errors then Some(errors[key]) else None
  }

  // ---------------------------------------------------- saving and loading

  /** The JSON values SaveConfig writes for the values the user has set. */
  function SavedData(specs: map<string, Spec>, active: map<string, ValueCache>): map<string, Data>
    requires active.Keys <= specs.Keys
  {
    map k | k in active :: Json(GetData(specs[k], active[k]))
  }

  /** The decoded file holds saved values only, and all of them exactly when no key extends another. */
  ghost predicate IsSave(file: Sections, saved: map<string, Data>) {
    && (forall key :: ValueAt(file, key).Some? ==> ValueAt(file, key) == Get(saved, key))
    && (IsFlatOf(saved, file) <==> PrefixFree(saved.Keys))
    && SlashFreeNames(Section(file))
  }

  predicate NilArray(spec: Spec, cache: ValueCache) {
    spec.optType == StringArrayType && cache.arrayVal.None?
  }

  predicate NoNilArrays(specs: map<string, Spec>, active: map<string, ValueCache>)
    requires active.Keys <= specs.Keys
  {
    forall k :: k in active ==> !NilArray(specs[k], active[k])
  }

  function ActiveAt(active: map<string, ValueCache>, key: string): Option<ValueCache> {
    if key in active then Some(active[key]) else None
  }

  /** Whatever order a saved file is flattened in, loading it gives every option its old value, set or
      not, if and only if no key of a saved value extends another one, all of them are stable, and no saved
      value is a nil string array. */
  lemma SaveLoadIff(specs: map<string, Spec>, active: map<string, ValueCache>, file: Sections, flat: map<string, Data>)
    requires active.Keys <= specs.Keys && forall k :: k in active ==> Validated(specs[k], active[k])
    requires IsSave(file, SavedData(specs, active)) && Flattening(flat, Section(file))
    ensures (forall k :: k in specs ==> LoadedAt(specs[k], Get(flat, k)) == ActiveAt(active, k)) <==>
              PrefixFree(active.Keys) && StableKeys(active.Keys) && NoNilArrays(specs, active)
  {
    var saved := SavedData(specs, active);
    assert saved.Keys == active.Keys;
    FlattenedIff(saved, file, flat);
    LoadSaved(specs, active);
    if forall k :: k in specs ==> LoadedAt(specs[k], Get(flat, k)) == ActiveAt(active, k) {
      forall k | k in active ensures k in flat {
        assert LoadedAt(specs[k], Get(flat, k)) == ActiveAt(active, k) == Some(active[k]);
      }
      assert flat == saved;
    }
  }

  lemma LoadSaved(specs: map<string, Spec>, active: map<string, ValueCache>)
    requires active.Keys <= specs.Keys && forall k :: k in active ==> Validated(specs[k], active[k])
    ensures var saved := SavedData(specs, active);
      (forall k :: k in specs ==> LoadedAt(specs[k], Get(saved, k)) == ActiveAt(active, k)) <==> NoNilArrays(specs, active)
  {
    var saved := SavedData(specs, active);
    forall k | k in active
      ensures LoadedAt(specs[k], Get(saved, k)) == if NilArray(specs[k], active[k]) then None else Some(active[k])
    {
      JsonRoundTrip(specs[k], active[k]);
    }
    if forall k :: k in specs ==> LoadedAt(specs[k], Get(saved, k)) == ActiveAt(active, k) {
      forall k | k in active ensures !NilArray(specs[k], active[k]) {
        assert LoadedAt(specs[k], Get(saved, k)) == ActiveAt(active, k) == Some(active[k]);
      }
    }
  }

  /** With keys that survive, exactly the nil string arrays are reported as invalid. */
  lemma SaveLoadErrors(specs: map<string, Spec>, active: map<string, ValueCache>, file: Sections,
                       flat: map<string, Data>, key: string)
    requires active.Keys <= specs.Keys && forall k :: k in active ==> Validated(specs[k], active[k])
    requires IsSave(file, SavedData(specs, active)) && Flattening(flat, Section(file))
    requires PrefixFree(active.Keys) && StableKeys(active.Keys) && key in specs
    ensures ErrorAt(specs[key], Get(flat, key)) ==
              if key in active && NilArray(specs[key], active[key]) then Some(InvalidType) else None
  {
    var saved := SavedData(specs, active);
    assert saved.Keys == active.Keys;
    FlattenedIff(saved, file, flat);
    if key in active {
      JsonRoundTrip(specs[key], active[key]);
    }
  }

  /** A value set under a key with an empty part is unset by saving and loading. */
  lemma DoubleSlashIsUnset(cache: ValueCache, file: Sections, flat: map<string, Data>)
    requires var specs := map["a//b" := Spec(BoolType, None, None, None)];
      IsSave(file, SavedData(specs, map["a//b" := cache])) && Flattening(flat, Section(file))
    ensures "a//b" !in flat
  {
    DoubleSlash();
    var saved := SavedData(map["a//b" := Spec(BoolType, None, None, None)], map["a//b" := cache]);
    assert saved.Keys == {"a//b"};
    assert "a//b" in saved && !StableKeys(saved.Keys);
    FlattenedIff(saved, file, flat);
  }

  /** A nil string array is a valid value, and its saved form is not. */
  lemma NilArrayIsLost() returns (spec: Spec, cache: ValueCache)
    ensures ValidateValue(spec, NilStrings) == Ok(cache)
    ensures ValidateValue(spec, Json(GetData(spec, cache))) == Err(InvalidType)
  {
    spec := Spec(StringArrayType, None, None, None);
    cache := ValueCache("", None, false);
  }

  /** What saving makes of an expanded config. */
  lemma JsonIsSave(data: map<string, Data>, saved: map<string, Data>, config: Sections)
    requires saved.Keys == data.Keys && forall k :: k in data ==> saved[k] == Json(data[k])
    requires forall key :: ValueAt(config, key).Some? ==> ValueAt(config, key) == Get(data, key)
    requires IsFlatOf(data, config) <==> PrefixFree(data.Keys)
    requires SlashFreeNames(Section(config))
    ensures IsSave(JsonTree(config), saved)
  {
    var file := JsonTree(config);
    JsonSlashFree(Section(config));
    forall key
      ensures ValueAt(file, key) == JsonOpt(ValueAt(config, key))
    {
      JsonLookup(Section(config), Split(key));
    }
    if IsFlatOf(data, config) {
      forall key ensures Get(saved, key) == ValueAt(file, key) {
        assert Get(data, key) == ValueAt(config, key);
      }
    }
    if IsFlatOf(saved, file) {
      forall key ensures Get(data, key) == ValueAt(config, key) {
        assert Get(saved, key) == ValueAt(file, key);
      }
    }
  }

  /** MapToJSON up to the bytes: the config is expanded and encoded. */
  method MapToJson(data: map<string, Data>) returns (file: Sections)
    ensures IsSave(file, map k | k in data :: Json(data[k]))
  {
    var config := Expand(data);
    var tree := Encode(config);
    file := JsonTree(tree);
    JsonIsSave(data, map k | k in data :: Json(data[k]), tree);
  }

  /** JSONToMap behind the parser. */
  method JsonToMap(file: Sections) returns (loaded: FlatConfig)
    ensures fresh(loaded)
    ensures Flattening(loaded.values, Section(file))
  {
    var config := Decode(Section(file));
    loaded := Flatten(config);
  }

  class Setting {
    const spec: Spec
    var activeValue: Option<ValueCache>

    constructor (spec: Spec)
      ensures this.spec == spec && activeValue == None
    {
      this.spec := spec;
      activeValue := None;
    }

    /** What ReplaceConfig does to one option, under its lock. */
    method Replace(newValue: Option<Data>) returns (error: Option<ValidationError>)
      modifies this
      ensures activeValue == LoadedAt(spec, newValue) && error == ErrorAt(spec, newValue)
      ensures activeValue.Some? ==> Validated(spec, activeValue.value)
    {
      activeValue := None;
      if newValue.None? {
        return None;
      }
      var validated := Validate(spec, newValue.value);
      match validated {
        case Ok(cache) =>
          activeValue := Some(cache);
          return None;
        case Err(e) =>
          return Some(e);
      }
    }
  }

  datatype SetResult = Done | UnknownOption | Incomplete | BadRegex | SaveFailed | Invalid(error: ValidationError)

  /** The registered options. */
  class Settings {
    var options: map<string, Setting>

    ghost predicate Valid()
      reads this, options.Values
    {
      && (forall k, l :: k in options && l in options && options[k] == options[l] ==> k == l)
      && (forall k :: k in options && options[k].activeValue.Some? ==>
            Validated(options[k].spec, options[k].activeValue.value))
      && (forall k :: k in options ==> Enforces(options[k].spec))
    }

    /** No option ever holds a value that is not among its possible ones. */
    lemma ActiveIsAllowed(key: string)
      requires Valid() && key in options && options[key].activeValue.Some?
      ensures IsAllowed(options[key].spec, options[key].activeValue.value)
    {
      AcceptedIsAllowed(options[key].spec, options[key].activeValue.value);
    }

    /** The values set by the user. */
    ghost function Active(): map<string, ValueCache>
      reads this, options.Values
    {
      map k | k in options && options[k].activeValue.Some? :: options[k].activeValue.value
    }

    ghost function Specs(): map<string, Spec>
      reads this
    {
      map k | k in options :: options[k].spec
    }

    constructor ()
      ensures Valid() && options == map[]
    {
      options := map[];
    }

    /** Register: an option of a known type with a name, a key, a description, a regex that compiles, if any,
        and a valid default is registered. A key can be taken over, which forgets its value. */
    method Register(name: string, key: string, description: string, declared: Declared, defaultValue: Data,
                    compile: string -> Option<string -> bool>) returns (r: SetResult)
      requires Valid()
      modifies this
      ensures Valid()
      ensures r.Done? <==> name != "" && key != "" && description != "" && SpecOf(declared, compile).Some? &&
                           ValidateValue(SpecOf(declared, compile).value, defaultValue).Ok?
      ensures !r.Done? ==> options == old(options)
      ensures r.Done? ==> key in options && fresh(options[key]) && options == old(options)[key := options[key]] &&
                          Some(options[key].spec) == SpecOf(declared, compile) && options[key].activeValue == None
      ensures r.Done? ==> var spec := options[key].spec;
                && Some(spec.optType) == declared.optType && spec.check == declared.check
                && spec.regex == (if RegexOf(declared) == "" then None else compile(RegexOf(declared)))
                && (if declared.possible.Some? then spec.possible == Some(declared.possible.value.allows)
                    else spec.possible == None)
    {
      if name == "" || key == "" || description == "" || declared.optType.None? {
        return Incomplete;
      }
      var validationRegex := RegexOf(declared);
      var compiledRegex: Option<string -> bool> := None;
      if validationRegex != "" {
        compiledRegex := compile(validationRegex);
        if compiledRegex.None? {
          return BadRegex;
        }
      }
      var possible := if declared.possible.Some? then Some(declared.possible.value.allows) else None;
      var spec := Spec(declared.optType.value, possible, compiledRegex, declared.check);
      var validated := Validate(spec, defaultValue);
      if validated.Err? {
        return Invalid(validated.error);
      }
      RegisteredEnforces(declared, compile);
      var option := new Setting(spec);
      options := options[key := option];
      return Done;
    }

    method ReplaceOne(key: string, newValue: Option<Data>) returns (error: Option<ValidationError>)
      requires Valid() && key in options
      modifies options[key]
      ensures Valid() && error == ErrorAt(options[key].spec, newValue)
      ensures options[key].activeValue == LoadedAt(options[key].spec, newValue)
      ensures forall k :: k in options && k != key ==> options[k].activeValue == old(options[k].activeValue)
    {
      error := options[key].Replace(newValue);
    }

    /** ReplaceConfig, with the options visited in any order. */
    method ReplaceConfig(newValues: map<string, Data>) returns (errors: map<string, ValidationError>)
      requires Valid()
      modifies options.Values
      ensures Valid()
      ensures forall k :: k in options ==> options[k].activeValue == LoadedAt(options[k].spec, Get(newValues, k))
      ensures forall k :: Reported(errors, k) ==
                          if k in options then ErrorAt(options[k].spec, Get(newValues, k)) else None
    {
      errors := map[];
      var todo := options.Keys;
      while todo != {}
        invariant todo <= options.Keys && Valid()
        invariant forall k :: k in options && k !in todo ==>
                    options[k].activeValue == LoadedAt(options[k].spec, Get(newValues, k))
        invariant forall k :: Reported(errors, k) ==
                    if k in options && k !in todo then ErrorAt(options[k].spec, Get(newValues, k)) else None
      {
        var key :| key in todo;
        var error := ReplaceOne(key, Get(newValues, key));
        if error.Some? {
          errors := errors[key := error.value];
        }
        todo := todo - {key};
      }
    }

    /** setConfigOption under the lock of the option. */
    method SetOption(key: string, value: Data) returns (r: SetResult)
      requires Valid()
      modifies options.Values
      ensures Valid()
      ensures r == if key !in options then UnknownOption
                   else if value.Null? then Done
                   else match ValidateValue(options[key].spec, value) { case Ok(_) => Done case Err(e) => Invalid(e) }
      ensures forall k :: k in options ==>
                options[k].activeValue ==
                if k == key && r.Done? then LoadedAt(options[k].spec, Some(value)) else old(options[k].activeValue)
    {
      if key !in options {
        return UnknownOption;
      }
      var option := options[key];
      if value.Null? {
        option.activeValue := None;
      } else {
        var validated := Validate(option.spec, value);
        if validated.Err? {
          return Invalid(validated.error);
        }
        option.activeValue := Some(validated.value);
      }
      return Done;
    }

    /** The JSON values a save writes. */
    ghost function Saved(): map<string, Data>
      reads this, options.Values
    {
      map k | k in options && options[k].activeValue.Some? ::
        Json(GetData(options[k].spec, options[k].activeValue.value))
    }

    lemma SavedIs()
      ensures Saved() == SavedData(Specs(), Active())
    {
      assert Saved().Keys == Active().Keys;
    }

    /** The loop of SaveConfig, over the options in any order. */
    method CollectActive() returns (activeValues: map<string, Data>)
      requires Valid()
      ensures (map k | k in activeValues :: Json(activeValues[k])) == Saved()
    {
      activeValues := map[];
      var todo := options.Keys;
      while todo != {}
        invariant todo <= options.Keys
        invariant forall k :: k in activeValues <==> k in options && k !in todo && options[k].activeValue.Some?
        invariant forall k :: k in activeValues ==>
                    activeValues[k] == GetData(options[k].spec, options[k].activeValue.value)
      {
        var key :| key in todo;
        var option := options[key];
        if option.activeValue.Some? {
          activeValues := activeValues[key := GetData(option.spec, option.activeValue.value)];
        }
        todo := todo - {key};
      }
    }

    /** SaveConfig up to the bytes: the values are collected in any order, expanded and encoded. */
    method SaveConfig() returns (file: Sections)
      requires Valid()
      ensures IsSave(file, Saved())
    {
      var activeValues := CollectActive();
      file := MapToJson(activeValues);
    }

    /** setConfigOption: nil unsets the option, a value that is refused changes nothing and saves nothing,
        and a change is saved at once. If the file cannot be written, the change is in force all the same. */
    method SetConfigOption(key: string, value: Data, writable: bool) returns (r: SetResult, file: Option<Sections>)
      requires Valid()
      modifies options.Values
      ensures Valid()
      ensures r == if key !in options then UnknownOption
                   else if value.Null? || ValidateValue(options[key].spec, value).Ok? then
                     if writable then Done else SaveFailed
                   else Invalid(ValidateValue(options[key].spec, value).error)
      ensures forall k :: k in options ==>
                options[k].activeValue ==
                if k == key && (r.Done? || r.SaveFailed?) then LoadedAt(options[k].spec, Some(value))
                else old(options[k].activeValue)
      ensures file.Some? <==> r.Done?
      ensures r.Done? ==> IsSave(file.value, Saved())
    {
      r := SetOption(key, value);
      if !r.Done? {
        return r, None;
      }
      if !writable {
        return SaveFailed, None;
      }
      var saved := SaveConfig();
      return r, Some(saved);
    }

    /** loadConfig behind the reading of the file. The new config is in force even if it is refused. */
    method LoadConfig(file: Sections, requireValidConfig: bool)
      returns (failed: bool, errors: map<string, ValidationError>, ghost flat: map<string, Data>)
      requires Valid()
      modifies options.Values
      ensures Valid() && Flattening(flat, Section(file))
      ensures forall k :: k in options ==> options[k].activeValue == LoadedAt(options[k].spec, Get(flat, k))
      ensures forall k :: Reported(errors, k) ==
                          if k in options then ErrorAt(options[k].spec, Get(flat, k)) else None
      ensures failed <==> requireValidConfig && errors != map[]
    {
      var newValues := JsonToMap(file);
      flat := newValues.values;
      errors := ReplaceConfig(newValues.values);
      failed := requireValidConfig && |errors| > 0;
    }

    /** Saving and loading again leaves every option as it was, set or unset, if and only if no key of a
        set option extends another one, all of them are stable, and no option is set to a nil string array. */
    method SaveThenLoad() returns (errors: map<string, ValidationError>)
      requires Valid()
      modifies options.Values
      ensures Valid()
      ensures Active() == old(Active()) <==>
                PrefixFree(old(Active().Keys)) && StableKeys(old(Active().Keys)) && old(NoNilArrays(Specs(), Active()))
    {
      ghost var active := Active();
      var file := SaveConfig();
      assert Active() == active && Specs() == old(Specs());
      SavedIs();
      errors := LoadBack(file, active);
    }

    method LoadBack(file: Sections, ghost active: map<string, ValueCache>)
      returns (errors: map<string, ValidationError>)
      requires Valid() && active == Active() && IsSave(file, SavedData(Specs(), active))
      modifies options.Values
      ensures Valid()
      ensures Active() == active <==>
                PrefixFree(active.Keys) && StableKeys(active.Keys) && old(NoNilArrays(Specs(), active))
    {
      ghost var specs := Specs();
      ghost var flat;
      var failed;
      failed, errors, flat := LoadConfig(file, false);
      Restored(specs, active, file, flat);
    }

    lemma Restored(specs: map<string, Spec>, active: map<string, ValueCache>, file: Sections, flat: map<string, Data>)
      requires specs == Specs() && active.Keys <= specs.Keys
      requires forall k :: k in active ==> Validated(specs[k], active[k])
      requires IsSave(file, SavedData(specs, active)) && Flattening(flat, Section(file))
      requires forall k :: k in options ==> options[k].activeValue == LoadedAt(options[k].spec, Get(flat, k))
      ensures Active() == active <==>
                PrefixFree(active.Keys) && StableKeys(active.Keys) && NoNilArrays(specs, active)
    {
      SaveLoadIff(specs, active, file, flat);
      SameActive(active);
      assert forall k :: k in options ==> specs[k] == options[k].spec;
    }

    /** The user values are the old ones exactly when every option has its old value. */
    lemma SameActive(active: map<string, ValueCache>)
      requires active.Keys <= options.Keys
      ensures Active() == active <==> forall k :: k in options ==> options[k].activeValue == ActiveAt(active, k)
    {
      if forall k :: k in options ==> options[k].activeValue == ActiveAt(active, k) {
        assert Active() == active;
      }
      if Active() == active {
        forall k | k in options ensures options[k].activeValue == ActiveAt(active, k) {
          assert k in Active() <==> options[k].activeValue.Some?;
        }
      }
    }
  }
}
