/** getFormElements of BackboneFormDataType.js: form fields from service or resource configs,
    where string configs of one level share a field. */
module FormFields {
  import opened Wrappers
  import opened Text

  datatype Kind = StringKind | BoolKind | EnumKind | OtherKind

  datatype Config = Config(name: string, kind: Kind, level: Option<int>, subType: string,
                           excludes: bool, recursive: bool, lookup: bool) {
    /** A string config that is rendered as a resource. */
    predicate Resource() { kind.StringKind? && (excludes || recursive || lookup) }
  }

  /** A field of its own, or the field that the configs of a level share. */
  datatype Field = Own(config: Config) | Shared(first: Config, sameLevelOpts: seq<string>)

  /** The form so far, and the levels in `samelevelFieldCreated`. */
  datatype Form = Form(attrs: map<string, Field>, created: seq<Option<int>>)

  function LevelName(level: Option<int>): string {
    "sameLevel" + match level case None => "undefined" case Some(n) => Str(n)
  }

  function NamesAt(configs: seq<Option<Config>>, level: Option<int>): seq<string> {
    if configs == [] then []
    else
      (if configs[0].Some? && configs[0].value.level == level then [configs[0].value.name] else [])
      + NamesAt(configs[1..], level)
  }

  /** Where the source throws: an enum that is not defined, a boolean without its two labels,
      and, in the search for a shared level, a null config. */
  predicate Throws(configs: seq<Option<Config>>, enums: set<string>, f: Form, v: Config) {
    (v.kind.EnumKind? && v.subType !in enums)
    || (v.kind.BoolKind? && v.subType != "" && ':' !in v.subType)
    || (v.Resource() && v.level !in f.created && None in configs)
  }

  /** One config; the form does not change when its level has its field already. */
  function AddConfig(configs: seq<Option<Config>>, f: Form, v: Config): Form {
    if v.kind.StringKind? && v.level in f.created then f
    else
      var opts := NamesAt(configs, v.level);
      if v.Resource() && |opts| > 1 then
        Form(f.attrs[LevelName(v.level) := Shared(v, opts)], f.created + [v.level])
      else f.(attrs := f.attrs[v.name := Own(v)])
  }

  /** The form after the first n configs; None once something has thrown. */
  function Build(configs: seq<Option<Config>>, enums: set<string>, attrs: map<string, Field>, n: nat): Option<Form>
    requires n <= |configs|
  {
    if n == 0 then Some(Form(attrs, []))
    else
      match Build(configs, enums, attrs, n - 1)
      case None => None
      case Some(f) =>
        match configs[n - 1]
        case None => Some(f)
        case Some(v) => if Throws(configs, enums, f, v) then None else Some(AddConfig(configs, f, v))
  }

  method GetFormElements(configs: seq<Option<Config>>, enums: set<string>, attrs: map<string, Field>)
    returns (result: Option<map<string, Field>>)
    ensures result == match Build(configs, enums, attrs, |configs|) { case None => None case Some(f) => Some(f.attrs) }
  {
    var fields := attrs;
    var samelevelFieldCreated: seq<Option<int>> := [];
    ghost var failed := false;
    for i := 0 to |configs|
      invariant Build(configs, enums, attrs, i) == Some(Form(fields, samelevelFieldCreated))
    {
      if configs[i].Some? {
        var v := configs[i].value;
        if Throws(configs, enums, Form(fields, samelevelFieldCreated), v) {
          StaysThrown(configs, enums, attrs, i + 1, |configs|);
          return None;
        }
        if !(v.kind.StringKind? && v.level in samelevelFieldCreated) {
          var fieldName, field := v.name, Own(v);
          if v.Resource() {
            var optionsTitle := NamesAt(configs, v.level);
            if |optionsTitle| > 1 {
              samelevelFieldCreated := samelevelFieldCreated + [v.level];
              fieldName, field := LevelName(v.level), Shared(v, optionsTitle);
            }
          }
          fields := fields[fieldName := field];
        }
      }
    }
    return Some(fields);
  }

  lemma {:induction false} StaysThrown(configs: seq<Option<Config>>, enums: set<string>, attrs: map<string, Field>,
                                       n: nat, m: nat)
    requires n <= m <= |configs| && Build(configs, enums, attrs, n) == None
    ensures Build(configs, enums, attrs, m) == None
    decreases m
  {
    if n < m {
      StaysThrown(configs, enums, attrs, n, m - 1);
    }
  }

  // ---- nothing is lost -----------------------------------------------------

  lemma LevelNameIs(n: nat)
    ensures LevelName(None) == "sameLevelundefined"
    ensures "sameLevel" <= LevelName(Some(n)) && Numeral(LevelName(Some(n))[9..]) == n
    ensures forall c | c in LevelName(Some(n))[9..] :: '0' <= c <= '9'
  {
    StrDenotes(n);
    assert LevelName(Some(n))[9..] == Str(n);
  }

  lemma LevelNamesDiffer(a: Option<int>, b: Option<int>)
    ensures LevelName(a) == LevelName(b) ==> a == b
  {
    if LevelName(a) == LevelName(b) {
      assert LevelName(a)[9..] == LevelName(b)[9..];
      match (a, b)
      case (Some(m), Some(n)) => StrInjective(m, n);
      case (Some(m), None) => NotUndefined(m);
      case (None, Some(n)) => NotUndefined(n);
      case (None, None) =>
    }
  }

  lemma NotUndefined(n: int)
    ensures Str(n) != "undefined"
  {
    DecimalStart(if n < 0 then -n else n);
    assert "undefined"[0] == 'u' && 'u' !in "0123456789";
  }

  /** Configs as the guarantees ask for: distinct names, none of them a shared field's. */
  ghost predicate GoodNames(configs: seq<Option<Config>>) {
    && (forall i, j | 0 <= i < j < |configs| && configs[i].Some? && configs[j].Some? ::
          configs[i].value.name != configs[j].value.name)
    && (forall i, j | 0 <= i < |configs| && 0 <= j < |configs| && configs[i].Some? && configs[j].Some? ::
          configs[i].value.name != LevelName(configs[j].value.level))
  }

  /** A config has its own field, or is listed in the one field of its level. */
  ghost predicate Shown(configs: seq<Option<Config>>, attrs: map<string, Field>, v: Config) {
    || (v.name in attrs && attrs[v.name] == Own(v))
    || (LevelName(v.level) in attrs && attrs[LevelName(v.level)].Shared?
        && attrs[LevelName(v.level)].sameLevelOpts == NamesAt(configs, v.level) && v.name in NamesAt(configs, v.level))
  }

  ghost predicate SharedFields(configs: seq<Option<Config>>, f: Form) {
    forall level :: level in f.created ==>
      && LevelName(level) in f.attrs && f.attrs[LevelName(level)].Shared?
      && f.attrs[LevelName(level)].sameLevelOpts == NamesAt(configs, level)
      && exists i :: 0 <= i < |configs| && configs[i].Some? && configs[i].value.level == level
  }

  lemma {:induction false} ListedAt(configs: seq<Option<Config>>, i: nat)
    requires i < |configs| && configs[i].Some?
    ensures configs[i].value.name in NamesAt(configs, configs[i].value.level)
  {
    if i > 0 {
      ListedAt(configs[1..], i - 1);
    }
  }

  // What one config does to the fields of the others.
  lemma AddKeeps(configs: seq<Option<Config>>, f: Form, i: nat)
    requires GoodNames(configs) && SharedFields(configs, f) && i < |configs| && configs[i].Some?
    ensures var g := AddConfig(configs, f, configs[i].value);
      && SharedFields(configs, g) && Shown(configs, g.attrs, configs[i].value)
      && forall j | 0 <= j < |configs| && j != i && configs[j].Some? ::
           Shown(configs, f.attrs, configs[j].value) ==> Shown(configs, g.attrs, configs[j].value)
  {
    hide NamesAt, LevelName;
    var v := configs[i].value;
    ListedAt(configs, i);
    forall level ensures LevelName(level) == LevelName(v.level) ==> level == v.level {
      LevelNamesDiffer(level, v.level);
    }
    var g := AddConfig(configs, f, v);
    forall j | 0 <= j < |configs| && j != i && configs[j].Some? && Shown(configs, f.attrs, configs[j].value)
      ensures Shown(configs, g.attrs, configs[j].value)
    {
      ListedAt(configs, j);
      assert configs[j].value.name != v.name;
    }
  }

  lemma {:induction false} BuildShows(configs: seq<Option<Config>>, enums: set<string>, attrs: map<string, Field>,
                                      n: nat)
    requires n <= |configs| && GoodNames(configs)
    requires Build(configs, enums, attrs, n).Some?
    ensures SharedFields(configs, Build(configs, enums, attrs, n).value)
    ensures forall j | 0 <= j < n && configs[j].Some? ::
      Shown(configs, Build(configs, enums, attrs, n).value.attrs, configs[j].value)
  {
    hide AddConfig, Throws, Shown, SharedFields, GoodNames;
    if n > 0 {
      BuildShows(configs, enums, attrs, n - 1);
      if configs[n - 1].Some? {
        AddKeeps(configs, Build(configs, enums, attrs, n - 1).value, n - 1);
      }
    } else {
      NothingShared(configs, attrs);
    }
  }

  lemma NothingShared(configs: seq<Option<Config>>, attrs: map<string, Field>)
    ensures SharedFields(configs, Form(attrs, []))
  {}

  /** No config is lost: each has a field under its own name or is listed in the one field of its
      level, with every other config of that level. */
  lemma NoConfigLost(configs: seq<Option<Config>>, enums: set<string>, attrs: map<string, Field>)
    requires GoodNames(configs) && Build(configs, enums, attrs, |configs|).Some?
    ensures forall j | 0 <= j < |configs| && configs[j].Some? ::
      Shown(configs, Build(configs, enums, attrs, |configs|).value.attrs, configs[j].value)
  {
    BuildShows(configs, enums, attrs, |configs|);
  }

  // ---- one field for a level -----------------------------------------------

  /** Every config of the level is a resource, and there are at least two. */
  ghost predicate SharedLevel(configs: seq<Option<Config>>, level: Option<int>) {
    && |NamesAt(configs, level)| > 1
    && forall i | 0 <= i < |configs| && configs[i].Some? && configs[i].value.level == level ::
         configs[i].value.Resource()
  }

  /** None of the level's configs has a field of its own. */
  ghost predicate NoOwnField(configs: seq<Option<Config>>, attrs: map<string, Field>, level: Option<int>) {
    forall i | 0 <= i < |configs| && configs[i].Some? && configs[i].value.level == level ::
      configs[i].value.name !in attrs
  }

  lemma AddNoOwn(configs: seq<Option<Config>>, f: Form, i: nat, level: Option<int>)
    requires GoodNames(configs) && SharedLevel(configs, level) && i < |configs| && configs[i].Some?
    requires NoOwnField(configs, f.attrs, level)
    ensures var g := AddConfig(configs, f, configs[i].value);
      && NoOwnField(configs, g.attrs, level) && (level in f.created ==> level in g.created)
      && (configs[i].value.level == level ==> level in g.created)
  {
    hide NamesAt, LevelName;
    var v := configs[i].value;
    forall j | 0 <= j < |configs| && configs[j].Some? && configs[j].value.level == level && v.level != level
      ensures configs[j].value.name != v.name
    {
      assert j != i;
    }
  }

  /** A level shared only by resource configs yields exactly one field, which lists them all. */
  lemma {:induction false} OneFieldForLevel(configs: seq<Option<Config>>, enums: set<string>, attrs: map<string, Field>,
                                            level: Option<int>, n: nat)
    requires GoodNames(configs) && SharedLevel(configs, level) && NoOwnField(configs, attrs, level)
    requires n <= |configs| && Build(configs, enums, attrs, n).Some?
    ensures var f := Build(configs, enums, attrs, n).value;
      && NoOwnField(configs, f.attrs, level)
      && ((exists i :: 0 <= i < n && configs[i].Some? && configs[i].value.level == level) ==>
            LevelName(level) in f.attrs && f.attrs[LevelName(level)].Shared?
            && f.attrs[LevelName(level)].sameLevelOpts == NamesAt(configs, level))
  {
    CreatedForLevel(configs, enums, attrs, level, n);
    BuildShows(configs, enums, attrs, n);
  }

  lemma {:induction false} CreatedForLevel(configs: seq<Option<Config>>, enums: set<string>, attrs: map<string, Field>,
                                           level: Option<int>, n: nat)
    requires GoodNames(configs) && SharedLevel(configs, level) && NoOwnField(configs, attrs, level)
    requires n <= |configs| && Build(configs, enums, attrs, n).Some?
    ensures var f := Build(configs, enums, attrs, n).value;
      && NoOwnField(configs, f.attrs, level)
      && ((exists i :: 0 <= i < n && configs[i].Some? && configs[i].value.level == level) ==> level in f.created)
  {
    hide AddConfig, Throws, GoodNames, SharedLevel, NoOwnField;
    if n > 0 {
      CreatedForLevel(configs, enums, attrs, level, n - 1);
      if configs[n - 1].Some? {
        AddNoOwn(configs, Build(configs, enums, attrs, n - 1).value, n - 1, level);
      }
    }
  }

  // ---- names, failures and own fields ----------------------------------------

  /** The names at a level are the names of its configs and no others. */
  lemma {:induction false} NamesAtIff(configs: seq<Option<Config>>, level: Option<int>, name: string)
    ensures name in NamesAt(configs, level) <==>
      exists i :: 0 <= i < |configs| && configs[i].Some?
                  && configs[i].value.level == level && configs[i].value.name == name
    ensures |NamesAt(configs, level)| <= |configs|
  {
    if configs != [] {
      NamesAtIff(configs[1..], level, name);
      assert configs == [configs[0]] + configs[1..];
      InConcat(name, if configs[0].Some? && configs[0].value.level == level then [configs[0].value.name] else [],
               NamesAt(configs[1..], level));
    }
  }

  /** They come in the order of the configs. */
  lemma {:induction false} NamesAtConcat(xs: seq<Option<Config>>, ys: seq<Option<Config>>, level: Option<int>)
    ensures NamesAt(xs + ys, level) == NamesAt(xs, level) + NamesAt(ys, level)
  {
    if xs == [] {
      assert xs + ys == ys;
    } else {
      NamesAtConcat(xs[1..], ys, level);
      assert (xs + ys)[1..] == xs[1..] + ys;
      Assoc(if xs[0].Some? && xs[0].value.level == level then [xs[0].value.name] else [],
            NamesAt(xs[1..], level), NamesAt(ys, level));
    }
  }

  /** A config at which the form cannot be built: an enum that is not defined, a boolean whose
      labels are not two, or a string config with a flag beside a null config. */
  predicate Bad(configs: seq<Option<Config>>, enums: set<string>, v: Config) {
    (v.kind == EnumKind && v.subType !in enums)
    || (v.kind == BoolKind && v.subType != "" && ':' !in v.subType)
    || (v.kind == StringKind && (v.excludes || v.recursive || v.lookup) && None in configs)
  }

  lemma {:induction false} BuildFails(configs: seq<Option<Config>>, enums: set<string>, attrs: map<string, Field>,
                                      n: nat)
    requires n <= |configs|
    ensures Build(configs, enums, attrs, n) == None <==>
      exists i :: 0 <= i < n && configs[i].Some? && Bad(configs, enums, configs[i].value)
    ensures Build(configs, enums, attrs, n).Some? && None in configs ==>
      Build(configs, enums, attrs, n).value.created == []
  {
    hide NamesAt, LevelName;
    if n > 0 {
      BuildFails(configs, enums, attrs, n - 1);
    }
  }

  /** The form fails to be built exactly when there is such a config. */
  lemma BuildFailsIff(configs: seq<Option<Config>>, enums: set<string>, attrs: map<string, Field>)
    ensures Build(configs, enums, attrs, |configs|) == None <==>
      exists v :: Some(v) in configs && Bad(configs, enums, v)
  {
    BuildFails(configs, enums, attrs, |configs|);
    if i :| 0 <= i < |configs| && configs[i].Some? && Bad(configs, enums, configs[i].value) {
      assert Some(configs[i].value) in configs;
    }
    if v :| Some(v) in configs && Bad(configs, enums, v) {
      var i :| 0 <= i < |configs| && configs[i] == Some(v);
      assert Bad(configs, enums, configs[i].value);
    }
  }

  /** By the time of config n the level has its shared field: a string config with a flag came
      before, and the level has more than one config. */
  ghost predicate LevelTaken(configs: seq<Option<Config>>, level: Option<int>, n: nat) {
    |NamesAt(configs, level)| > 1
    && exists i :: 0 <= i < n <= |configs| && configs[i].Some? && configs[i].value.level == level
                   && configs[i].value.kind == StringKind
                   && (configs[i].value.excludes || configs[i].value.recursive || configs[i].value.lookup)
  }

  lemma {:induction false} CreatedIff(configs: seq<Option<Config>>, enums: set<string>, attrs: map<string, Field>,
                                      n: nat)
    requires n <= |configs| && Build(configs, enums, attrs, n).Some?
    ensures forall level :: level in Build(configs, enums, attrs, n).value.created <==> LevelTaken(configs, level, n)
  {
    hide NamesAt, LevelName;
    if n > 0 {
      CreatedIff(configs, enums, attrs, n - 1);
      TakenNext(configs, n - 1);
    }
  }

  lemma TakenNext(configs: seq<Option<Config>>, n: nat)
    requires n < |configs|
    ensures forall level :: LevelTaken(configs, level, n + 1) <==>
      LevelTaken(configs, level, n)
      || (configs[n].Some? && configs[n].value.Resource() && configs[n].value.level == level
          && |NamesAt(configs, level)| > 1)
  {
    hide NamesAt;
  }

  /** The shared field is made from the first string config with a flag at the level. */
  ghost predicate FirstOf(configs: seq<Option<Config>>, level: Option<int>, v: Config) {
    exists i :: 0 <= i < |configs| && configs[i] == Some(v) && v.Resource() && v.level == level
                && forall j | 0 <= j < i && configs[j].Some? && configs[j].value.level == level ::
                     !configs[j].value.Resource()
  }

  lemma {:induction false} SharedFromFirst(configs: seq<Option<Config>>, enums: set<string>, attrs: map<string, Field>,
                                           n: nat)
    requires GoodNames(configs) && n <= |configs| && Build(configs, enums, attrs, n).Some?
    ensures var f := Build(configs, enums, attrs, n).value;
      forall level :: level in f.created ==>
        LevelName(level) in f.attrs && f.attrs[LevelName(level)].Shared?
        && FirstOf(configs, level, f.attrs[LevelName(level)].first)
  {
    hide NamesAt, LevelName, FirstOf;
    if n > 0 {
      SharedFromFirst(configs, enums, attrs, n - 1);
      var f := Build(configs, enums, attrs, n - 1).value;
      if configs[n - 1].Some? {
        var v := configs[n - 1].value;
        forall level ensures LevelName(level) == LevelName(v.level) ==> level == v.level {
          LevelNamesDiffer(level, v.level);
        }
        CreatedIff(configs, enums, attrs, n - 1);
        if v.Resource() && v.level !in f.created && |NamesAt(configs, v.level)| > 1 {
          IsFirst(configs, n - 1);
        }
      }
    }
  }

  lemma IsFirst(configs: seq<Option<Config>>, n: nat)
    requires n < |configs| && configs[n].Some? && configs[n].value.Resource()
    requires |NamesAt(configs, configs[n].value.level)| > 1 && !LevelTaken(configs, configs[n].value.level, n)
    ensures FirstOf(configs, configs[n].value.level, configs[n].value)
  {
    hide NamesAt;
    var v := configs[n].value;
    assert configs[n] == Some(v);
  }

  /** A config has a field under its own name unless it is a string config of a level that has its
      shared field, from before or, if it has a flag, by itself. */
  lemma OwnFieldIff(configs: seq<Option<Config>>, enums: set<string>, attrs: map<string, Field>, j: nat)
    requires GoodNames(configs) && j < |configs| && configs[j].Some? && configs[j].value.name !in attrs
    requires Build(configs, enums, attrs, |configs|).Some?
    ensures configs[j].value.name in Build(configs, enums, attrs, |configs|).value.attrs
       <==> !(configs[j].value.kind == StringKind && LevelTaken(configs, configs[j].value.level, j + 1))
  {
    OwnField(configs, enums, attrs, j, |configs|);
  }

  lemma {:induction false} OwnField(configs: seq<Option<Config>>, enums: set<string>, attrs: map<string, Field>, j: nat,
                                    n: nat)
    requires GoodNames(configs) && j < |configs| && configs[j].Some? && configs[j].value.name !in attrs
    requires n <= |configs| && Build(configs, enums, attrs, n).Some?
    ensures configs[j].value.name in Build(configs, enums, attrs, n).value.attrs
       <==> j < n && !(configs[j].value.kind == StringKind && LevelTaken(configs, configs[j].value.level, j + 1))
  {
    hide NamesAt, LevelName, LevelTaken;
    if n > 0 {
      OwnField(configs, enums, attrs, j, n - 1);
      CreatedIff(configs, enums, attrs, n - 1);
      TakenNext(configs, n - 1);
    }
  }
}
