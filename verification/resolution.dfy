/** `get_game_id`, `get_category_id` and `get_variable_info`: the lookups
    that turn the configured names into speedrun.com identifiers.  Each
    receives the `data` list of its endpoint's response (the request itself
    is not modelled).  Names are compared with `.lower()` on both sides and
    the first match in the API's order wins. */
module Resolution {
  import opened Wrappers
  import opened Text

  datatype Game = Game(id: string, name: string)
  datatype Category = Category(id: string, name: string)

  /** One entry of `values.values`, a JSON object kept in its key order:
      `id` is the key, `valueLabel` the entry's `label`. */
  datatype ValueOption = ValueOption(id: string, valueLabel: string)
  datatype Variable = Variable(id: string, name: string, values: seq<ValueOption>)

  /** `(variable_id, val_id, val_data["label"])`. */
  datatype VariableInfo = VariableInfo(variableId: string, valueId: string, valueLabel: string)

  /** The `ValueError`s the lookups raise. */
  datatype LookupError =
    | GameNotFound(game: string)
    | CategoryNotFound(category: string)
    | VariableOrValueNotFound

  /** `get_game_id`: the first game the name search returns; its name is not
      compared with the one asked for. */
  function GameId(games: seq<Game>, gameName: string): (r: Result<string, LookupError>)
    ensures r.Failure? <==> |games| == 0
    ensures r.Failure? ==> r.error == GameNotFound(gameName)
    ensures r.Success? ==> r.value == games[0].id
  {
    if |games| == 0 then Failure(GameNotFound(gameName)) else Success(games[0].id)
  }

  // ---------------------------------------------------------------------
  // Categories

  /** The position of the first category whose name matches `name`. */
  function FirstCategory(cats: seq<Category>, name: string): (r: Option<nat>)
    ensures r.None? <==> forall i :: 0 <= i < |cats| ==> !SameIgnoringCase(cats[i].name, name)
    ensures r.Some? ==> r.value < |cats| && SameIgnoringCase(cats[r.value].name, name)
                        && forall j :: 0 <= j < r.value ==> !SameIgnoringCase(cats[j].name, name)
    decreases |cats|
  {
    if cats == [] then None
    else if SameIgnoringCase(cats[0].name, name) then Some(0)
    else
      match FirstCategory(cats[1..], name)
      case None => None
      case Some(i) => Some(i + 1)
  }

  /** `get_category_id`: the loop over `data` with its early return. */
  method GetCategoryId(cats: seq<Category>, name: string) returns (r: Result<string, LookupError>)
    ensures r.Success? <==> exists i :: 0 <= i < |cats| && SameIgnoringCase(cats[i].name, name)
    ensures r.Success? ==> r.value == cats[FirstCategory(cats, name).value].id
    ensures r.Failure? ==> r.error == CategoryNotFound(name)
  {
    for i := 0 to |cats|
      invariant forall j :: 0 <= j < i ==> !SameIgnoringCase(cats[j].name, name)
    {
      if SameIgnoringCase(cats[i].name, name) {
        return Success(cats[i].id);
      }
    }
    return Failure(CategoryNotFound(name));
  }

  /** Asking in lower case finds the same category. */
  lemma CategoryLookupIgnoresCase(cats: seq<Category>, name: string)
    ensures FirstCategory(cats, ToLower(name)) == FirstCategory(cats, name)
  {
    forall i | 0 <= i < |cats|
      ensures SameIgnoringCase(cats[i].name, ToLower(name)) <==> SameIgnoringCase(cats[i].name, name)
    {
      LowerAgainSame(cats[i].name, name);
    }
    var a, b := FirstCategory(cats, ToLower(name)), FirstCategory(cats, name);
    if a.Some? && b.Some? {
      assert !(a.value < b.value) && !(b.value < a.value);
    }
  }

  // ---------------------------------------------------------------------
  // Variables and values

  /** Value `k` of variable `i` is a hit: the variable's name and the
      value's label both match, ignoring case. */
  predicate Hit(vars: seq<Variable>, varName: string, valueLabel: string, i: int, k: int) {
    && 0 <= i < |vars| && 0 <= k < |vars[i].values|
    && SameIgnoringCase(vars[i].name, varName)
    && SameIgnoringCase(vars[i].values[k].valueLabel, valueLabel)
  }

  /** `(i, k)` comes no later than `(i2, k2)` in the order of the two loops. */
  predicate NotAfter(i: int, k: int, i2: int, k2: int) {
    i < i2 || (i == i2 && k <= k2)
  }

  /** The first hit in loop order: variables in order, and the values of one
      variable in order before the next variable. */
  function FirstHit(vars: seq<Variable>, varName: string, valueLabel: string): (r: Option<(nat, nat)>)
    ensures r.None? <==> forall i, k :: !Hit(vars, varName, valueLabel, i, k)
    ensures r.Some? ==> Hit(vars, varName, valueLabel, r.value.0, r.value.1)
    ensures r.Some? ==>
      forall i, k :: Hit(vars, varName, valueLabel, i, k) ==> NotAfter(r.value.0, r.value.1, i, k)
    decreases |vars|
  {
    if vars == [] then None
    else
      var v := vars[0];
      var hereAt := if SameIgnoringCase(v.name, varName) then FirstLabel(v.values, valueLabel) else None;
      if hereAt.Some? then
        assert Hit(vars, varName, valueLabel, 0, hereAt.value);
        Some((0, hereAt.value))
      else
        var later := FirstHit(vars[1..], varName, valueLabel);
        assert forall i, k :: 1 <= i ==> (Hit(vars, varName, valueLabel, i, k) <==> Hit(vars[1..], varName, valueLabel, i - 1, k));
        assert forall k :: !Hit(vars, varName, valueLabel, 0, k);
        match later
        case None => None
        case Some(p) =>
          assert Hit(vars, varName, valueLabel, p.0 + 1, p.1);
          Some((p.0 + 1, p.1))
  }

  /** The position of the first value whose label matches. */
  function FirstLabel(values: seq<ValueOption>, valueLabel: string): (r: Option<nat>)
    ensures r.None? <==> forall k :: 0 <= k < |values| ==> !SameIgnoringCase(values[k].valueLabel, valueLabel)
    ensures r.Some? ==> r.value < |values| && SameIgnoringCase(values[r.value].valueLabel, valueLabel)
                        && forall j :: 0 <= j < r.value ==> !SameIgnoringCase(values[j].valueLabel, valueLabel)
    decreases |values|
  {
    if values == [] then None
    else if SameIgnoringCase(values[0].valueLabel, valueLabel) then Some(0)
    else
      match FirstLabel(values[1..], valueLabel)
      case None => None
      case Some(k) => Some(k + 1)
  }

  /** `get_variable_info`: the nested loops with their early return.  A
      variable whose name matches but none of whose labels does is passed
      over, and the search goes on with the next variable. */
  method GetVariableInfo(vars: seq<Variable>, varName: string, valueLabel: string)
    returns (r: Result<VariableInfo, LookupError>)
    ensures r.Success? <==> exists i, k :: Hit(vars, varName, valueLabel, i, k)
    ensures r.Success? ==>
      var (i, k) := FirstHit(vars, varName, valueLabel).value;
      r.value == VariableInfo(vars[i].id, vars[i].values[k].id, vars[i].values[k].valueLabel)
    ensures r.Failure? ==> r.error == VariableOrValueNotFound
  {
    for i := 0 to |vars|
      invariant forall i2, k2 :: Hit(vars, varName, valueLabel, i2, k2) ==> i <= i2
    {
      if SameIgnoringCase(vars[i].name, varName) {
        var values := vars[i].values;
        for k := 0 to |values|
          invariant forall k2 :: Hit(vars, varName, valueLabel, i, k2) ==> k <= k2
        {
          if SameIgnoringCase(values[k].valueLabel, valueLabel) {
            assert Hit(vars, varName, valueLabel, i, k);
            ghost var first := FirstHit(vars, varName, valueLabel).value;
            assert NotAfter(first.0, first.1, i, k) && NotAfter(i, k, first.0, first.1);
            return Success(VariableInfo(vars[i].id, values[k].id, values[k].valueLabel));
          }
        }
      }
    }
    return Failure(VariableOrValueNotFound);
  }

  /** The label returned is the API's own spelling, which matches the one
      asked for up to letter case. */
  lemma FoundLabelMatches(vars: seq<Variable>, varName: string, valueLabel: string)
    requires FirstHit(vars, varName, valueLabel).Some?
    ensures var (i, k) := FirstHit(vars, varName, valueLabel).value;
      SameIgnoringCase(vars[i].values[k].valueLabel, valueLabel) && SameIgnoringCase(vars[i].name, varName)
  {
  }

  /** Asking in lower case finds the same variable and value. */
  lemma VariableLookupIgnoresCase(vars: seq<Variable>, varName: string, valueLabel: string)
    ensures FirstHit(vars, ToLower(varName), ToLower(valueLabel)) == FirstHit(vars, varName, valueLabel)
  {
    forall i, k
      ensures Hit(vars, ToLower(varName), ToLower(valueLabel), i, k) <==> Hit(vars, varName, valueLabel, i, k)
    {
      if 0 <= i < |vars| && 0 <= k < |vars[i].values| {
        LowerAgainSame(vars[i].name, varName);
        LowerAgainSame(vars[i].values[k].valueLabel, valueLabel);
      }
    }
    var a, b := FirstHit(vars, ToLower(varName), ToLower(valueLabel)), FirstHit(vars, varName, valueLabel);
    if a.Some? && b.Some? {
      assert NotAfter(a.value.0, a.value.1, b.value.0, b.value.1);
      assert NotAfter(b.value.0, b.value.1, a.value.0, a.value.1);
    }
  }

  /** A first variable with the right name but no matching label does not
      stop the search: the value is taken from a later variable. */
  lemma LaterVariableSuppliesValue()
    ensures var vars := [Variable("v1", "Patch", [ValueOption("a", "No")]),
                         Variable("v2", "patch", [ValueOption("b", "YES")])];
      FirstHit(vars, "PATCH", "yes") == Some((1, 0))
  {
    var vars := [Variable("v1", "Patch", [ValueOption("a", "No")]),
                 Variable("v2", "patch", [ValueOption("b", "YES")])];
    assert !Hit(vars, "PATCH", "yes", 0, 0) by {
      assert ToLower("No")[0] == 'n' && ToLower("yes")[0] == 'y';
    }
    assert Hit(vars, "PATCH", "yes", 1, 0) by {
      assert ToLower("patch") == ToLower("PATCH");
      assert ToLower("YES") == ToLower("yes");
    }
  }
}
