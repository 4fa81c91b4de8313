/** The validator registry (validators/index.ts): the validators by name, in
    registration order, and the lookup that falls back to the base
    validator. */
module Registry {
  import opened Wrappers
  import opened Types
  import opened Checks
  import BaseValidator
  import RedisDevelopment
  import RedisCloudApi

  /** The three validators the repository defines. None of them defines the
      optional skill-wide check. */
  datatype RuleValidator = Base | Development | CloudApi {
    function Name(): string {
      match this
      case Base => BaseValidator.Name
      case Development => RedisDevelopment.Name
      case CloudApi => RedisCloudApi.Name
    }

    function ValidateRule(rule: Rule, file: string, content: string): seq<ValidationError> {
      match this
      case Base => BaseValidator.ValidateRule(rule, file, content)
      case Development => RedisDevelopment.ValidateRule(rule, file, content)
      case CloudApi => RedisCloudApi.ValidateRule(rule, file, content)
    }
  }

  /** The registry object, its keys in insertion order. */
  const Validators: seq<(string, RuleValidator)> :=
    [("base", Base), ("redis-development", Development), ("redis-cloud-api", CloudApi)]

  predicate IsKey(entries: seq<(string, RuleValidator)>, key: string) {
    exists i | 0 <= i < |entries| :: entries[i].0 == key
  }

  /** The value of the first entry under `key`, if any. */
  function Lookup(entries: seq<(string, RuleValidator)>, key: string): (r: Option<RuleValidator>)
    ensures r.Some? <==> IsKey(entries, key)
    ensures r.Some? ==> exists i | 0 <= i < |entries| :: entries[i] == (key, r.value)
    ensures forall i | 0 <= i < |entries| && entries[i].0 == key ::
      r.Some? && (entries[i].1 == r.value || exists j | 0 <= j < i :: entries[j].0 == key)
  {
    if |entries| == 0 then None
    else if entries[0].0 == key then Some(entries[0].1)
    else
      var r := Lookup(entries[1..], key);
      assert forall i | 1 <= i < |entries| :: entries[i] == entries[1..][i - 1];
      r
  }

  /** `getValidator`, reading only the registry's own keys: the validator
      registered under `name`, the base validator for any other name. */
  function GetValidator(name: string): (v: RuleValidator)
    ensures forall i | 0 <= i < |Validators| :: Validators[i].0 == name ==> v == Validators[i].1
    ensures !IsKey(Validators, name) ==> v == Base
  {
    Lookup(Validators, name).GetOr(Base)
  }

  /** The keys of `entries`, in order. */
  function Keys(entries: seq<(string, RuleValidator)>): (keys: seq<string>)
    ensures |keys| == |entries|
    ensures forall n :: n in keys <==> IsKey(entries, n)
  {
    if |entries| == 0 then []
    else
      var rest := Keys(entries[1..]);
      assert forall i | 1 <= i < |entries| :: entries[i] == entries[1..][i - 1];
      assert forall n | IsKey(entries[1..], n) :: IsKey(entries, n);
      [entries[0].0] + rest
  }

  /** `getValidatorNames`: the keys, in registration order. */
  function GetValidatorNames(): (names: seq<string>)
    ensures |names| == |Validators|
    ensures forall n :: n in names <==> IsKey(Validators, n)
  {
    Keys(Validators)
  }

  /** Each validator is registered under its own name. */
  lemma RegisteredUnderOwnName(v: RuleValidator)
    ensures v.Name() in GetValidatorNames()
    ensures GetValidator(v.Name()) == v
  {
    assert Validators[0] == ("base", Base);
    assert Validators[1] == ("redis-development", Development);
    assert Validators[2] == ("redis-cloud-api", CloudApi);
  }

  /** A name is registered exactly when the validator it looks up carries
      that name: any other name gets the base validator, named "base". */
  lemma NamesAreExactlyRegistered(name: string)
    ensures name in GetValidatorNames() <==> GetValidator(name).Name() == name
  {
    if name in GetValidatorNames() {
      var i :| 0 <= i < |Validators| && Validators[i].0 == name;
      RegisteredUnderOwnName(Validators[i].1);
    } else {
      assert GetValidator(name) == Base;
      RegisteredUnderOwnName(Base);
    }
  }

  /** The registered names, in order. */
  lemma ValidatorNamesListed()
    ensures GetValidatorNames() == ["base", "redis-development", "redis-cloud-api"]
  {
  }

  /** Unknown names, the empty name among them, get the base validator. */
  lemma UnknownNameGetsBase(name: string)
    requires name != "base" && name != "redis-development" && name != "redis-cloud-api"
    ensures GetValidator(name) == Base
    ensures GetValidator(name).Name() == "base"
  {
  }

  /** Every validator reports the base errors first, and passes only rules
      the base validator passes. */
  lemma BaseErrorsFirst(v: RuleValidator, rule: Rule, file: string, content: string)
    ensures var base := BaseValidator.ValidateRule(rule, file, content);
      var errors := v.ValidateRule(rule, file, content);
      |base| <= |errors| && errors[..|base|] == base && (errors == [] ==> base == [])
  {
  }

  /** Every validator's errors name the file and the rule they are about. */
  lemma ErrorsAboutRule(v: RuleValidator, rule: Rule, file: string, content: string)
    ensures AllAbout(v.ValidateRule(rule, file, content), file, Some(rule.id))
  {
  }
}
