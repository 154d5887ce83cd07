/**
 Packs (crates/hawk/src/packs.rs): the manifest checks behind TOML decoding, the loader, and the
 variable schema.
 */
module Packs {
  import opened Text
  import opened Ordering
  import opened Decimal

  datatype ArgType = StringArg | IntArg | BoolArg

  datatype ArgSpec = ArgSpec(name: string, ty: ArgType, default: string, help: string)

  // ----- Variable schema

  predicate IsBoolWord(v: string) {
    v == "true" || v == "false" || v == "1" || v == "0"
  }

  /** What `validate_tvars` accepts for a value of a type. */
  predicate Fits(ty: ArgType, v: string) {
    match ty
    case StringArg => true
    case IntArg => ParseI64(v).Some?
    case BoolArg => IsBoolWord(Lower(v))
  }

  /** What `validate_arg_default` accepts: the same, or nothing. */
  predicate DefaultOk(spec: ArgSpec) {
    match spec.ty
    case StringArg => true
    case IntArg => Trim(spec.default) == "" || ParseI64(spec.default).Some?
    case BoolArg => Lower(spec.default) == "" || IsBoolWord(Lower(spec.default))
  }

  /** The declaration that counts for each name: the last one. */
  function Declared(args: seq<ArgSpec>): map<string, ArgSpec> {
    if args == [] then map[]
    else
      var last := args[|args| - 1];
      Declared(args[..|args| - 1])[last.name := last]
  }

  function Defaults(args: seq<ArgSpec>): map<string, string> {
    if args == [] then map[]
    else
      var last := args[|args| - 1];
      Defaults(args[..|args| - 1])[last.name := last.default]
  }

  predicate Valid(args: seq<ArgSpec>, tvars: map<string, string>) {
    var allowed := Declared(args);
    forall k :: k in tvars ==> k in allowed && Fits(allowed[k].ty, tvars[k])
  }

  datatype Verdict = Fine | UnknownVar(name: string) | BadValue(name: string)

  /** `validate_tvars`: variables in key order, the first bad one is reported. */
  method ValidateTvars(args: seq<ArgSpec>, tvars: map<string, string>) returns (r: Verdict)
    ensures r == Fine <==> Valid(args, tvars)
    ensures r != Fine ==> forall k :: k in tvars && k != r.name && Le(k, r.name) ==>
      k in Declared(args) && Fits(Declared(args)[k].ty, tvars[k])
    ensures r.UnknownVar? ==> r.name in tvars && r.name !in Declared(args)
    ensures r.BadValue? ==>
      r.name in tvars && r.name in Declared(args) && !Fits(Declared(args)[r.name].ty, tvars[r.name])
  {
    hide ParseI64, SortedKeys, Le;
    var allowed: map<string, ArgSpec> := map[];
    for i := 0 to |args|
      invariant allowed == Declared(args[..i])
    {
      assert args[..i + 1][..i] == args[..i];
      allowed := allowed[args[i].name := args[i]];
    }
    assert args[..|args|] == args;
    var keys := SortedKeys(tvars.Keys);
    for i := 0 to |keys|
      invariant forall j :: 0 <= j < i ==> keys[j] in allowed && keys[j] in tvars && Fits(allowed[keys[j]].ty, tvars[keys[j]])
    {
      var k := keys[i];
      assert k in tvars;
      forall x | x in tvars && x != k && Le(x, k) ensures x in keys[..i] {
        FrontKeys(tvars.Keys, i, x);
      }
      if k !in allowed {
        return UnknownVar(k);
      }
      match allowed[k].ty {
        case StringArg =>
        case IntArg =>
          if ParseI64(tvars[k]).None? {
            return BadValue(k);
          }
        case BoolArg =>
          var vv := Lower(tvars[k]);
          if vv != "true" && vv != "false" && vv != "1" && vv != "0" {
            return BadValue(k);
          }
      }
    }
    assert forall k :: k in tvars ==> k in keys;
    return Fine;
  }

  /** The last declaration of a name counts. */
  lemma {:induction false} DeclaredLast(args: seq<ArgSpec>, i: nat)
    requires i < |args| && forall j :: i < j < |args| ==> args[j].name != args[i].name
    ensures args[i].name in Declared(args) && Declared(args)[args[i].name] == args[i]
    ensures args[i].name in Defaults(args) && Defaults(args)[args[i].name] == args[i].default
  {
    if i < |args| - 1 {
      DeclaredLast(args[..|args| - 1], i);
    }
  }

  /** A declared name has a declaration. */
  lemma {:induction false} DeclaredSomewhere(args: seq<ArgSpec>, name: string) returns (i: nat)
    requires name in Declared(args)
    ensures i < |args| && args[i].name == name && Declared(args)[name] == args[i]
  {
    var n := |args| - 1;
    if args[n].name == name {
      i := n;
    } else {
      i := DeclaredSomewhere(args[..n], name);
    }
  }

  /** `default_tvars`. */
  method DefaultTvars(args: seq<ArgSpec>) returns (out: map<string, string>)
    ensures out == Defaults(args)
  {
    out := map[];
    for i := 0 to |args|
      invariant out == Defaults(args[..i])
    {
      assert args[..i + 1][..i] == args[..i];
      out := out[args[i].name := args[i].default];
    }
    assert args[..|args|] == args;
  }

  /** Defaults first, then the user's variables over them. */
  method MergeTvars(args: seq<ArgSpec>, user: map<string, string>) returns (merged: map<string, string>)
    ensures merged == Defaults(args) + user
  {
    hide SortedKeys, Defaults;
    merged := DefaultTvars(args);
    merged := InsertAll(merged, user, SortedKeys(user.Keys));
  }

  method InsertAll(base: map<string, string>, user: map<string, string>, keys: seq<string>)
    returns (merged: map<string, string>)
    requires forall k :: k in keys <==> k in user
    ensures merged == base + user
  {
    merged := base;
    ghost var done: map<string, string> := map[];
    for i := 0 to |keys|
      invariant merged == base + done
      invariant forall k :: k in done ==> k in user && done[k] == user[k]
      invariant forall j :: 0 <= j < i ==> keys[j] in done
    {
      var k := keys[i];
      assert k in keys;
      merged := merged[k := user[k]];
      done := done[k := user[k]];
    }
    assert forall k :: k in user ==> k in done;
    assert done == user;
  }

  lemma {:induction false} DefaultsOfDeclared(args: seq<ArgSpec>)
    requires forall i :: 0 <= i < |args| ==> DefaultOk(args[i])
    ensures Defaults(args).Keys == Declared(args).Keys
    ensures forall k :: k in Declared(args) ==> Defaults(args)[k] == Declared(args)[k].default
    ensures forall k :: k in Declared(args) ==> DefaultOk(Declared(args)[k])
  {
    hide DefaultOk;
    if args != [] {
      DefaultsOfDeclared(args[..|args| - 1]);
    }
  }

  /** A default that was accepted serves as a value unless it is a blank where a value is needed. */
  lemma DefaultFits(spec: ArgSpec)
    requires DefaultOk(spec)
    ensures Fits(spec.ty, spec.default) <==> spec.ty.StringArg? || Trim(spec.default) != ""
  {
    if spec.ty.IntArg? {
      if ParseI64(spec.default).Some? {
        IntTextPlain(spec.default);
        TrimIdentity(spec.default);
      }
    } else if spec.ty.BoolArg? {
      if spec.default != "" {
        assert !IsSpace(Lower(spec.default)[0]);
        assert !IsSpace(spec.default[0]);
        TrimBlank(spec.default);
        assert !Blank(spec.default);
      }
    }
  }

  predicate FitsWords(ty: ArgType, v: string) {
    && (ty.IntArg? ==> ParseI64(v).Some?)
    && (ty.BoolArg? ==> Lower(v) in {"true", "false", "1", "0"})
  }

  lemma FitsMeans(ty: ArgType, v: string)
    ensures Fits(ty, v) <==> FitsWords(ty, v)
  {
    hide ParseI64;
  }

  /**
   Schema acceptance, exactly: for arguments the manifest accepted, duplicates included, defaults and
   user variables together validate if and only if every user variable is declared and fits the type
   declared last, and no integer or boolean default is left blank without being overridden.
   */
  lemma SchemaAcceptance(args: seq<ArgSpec>, user: map<string, string>)
    requires forall i :: 0 <= i < |args| ==> DefaultOk(args[i])
    ensures
      var allowed := Declared(args);
      Valid(args, Defaults(args) + user) <==>
      && (forall k :: k in user ==>
            && k in allowed
            && (allowed[k].ty.IntArg? ==> ParseI64(user[k]).Some?)
            && (allowed[k].ty.BoolArg? ==> Lower(user[k]) in {"true", "false", "1", "0"}))
      && (forall k :: k in allowed && k !in user ==> allowed[k].ty.StringArg? || Trim(allowed[k].default) != "")
  {
    hide Declared, Defaults, DefaultOk, ParseI64, Trim, Fits, Lower;
    DefaultsOfDeclared(args);
    var allowed := Declared(args);
    var merged := Defaults(args) + user;
    forall k | k in allowed
      ensures Fits(allowed[k].ty, allowed[k].default) <==> allowed[k].ty.StringArg? || Trim(allowed[k].default) != ""
    {
      DefaultFits(allowed[k]);
    }
    forall ty, v ensures Fits(ty, v) <==> FitsWords(ty, v) {
      FitsMeans(ty, v);
    }
    assert forall k :: k in user ==> k in merged && merged[k] == user[k];
    assert forall k :: k in allowed && k !in user ==> k in merged && merged[k] == allowed[k].default;
  }
}
