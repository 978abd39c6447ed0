/** `SignType`: the closed set of MineAuction sign behaviours, each with a
    lower-case name used both as a configuration key suffix and to parse the
    type a player writes on a sign. */
module SignTypes {
  import opened Lang

  datatype SignType = Deposit | Withdraw

  /** `SignType.values()`, in declaration order. */
  const Values: seq<SignType> := [Deposit, Withdraw]

  /** `getName()`. */
  function Name(t: SignType): (r: string)
    ensures t == Deposit ==> r == "deposit"
    ensures t == Withdraw ==> r == "withdraw"
  {
    match t
    case Deposit => "deposit"
    case Withdraw => "withdraw"
  }

  /** `getByName(name)`: the first type in `candidates` whose name equals
      `name` ignoring case, or null. */
  function FirstByName(name: string, candidates: seq<SignType>): (r: Option<SignType>)
    ensures r.Some? ==> r.value in candidates && EqualsIgnoreCase(name, Name(r.value))
    ensures r.None? <==> forall t :: t in candidates ==> !EqualsIgnoreCase(name, Name(t))
  {
    if candidates == [] then None
    else if EqualsIgnoreCase(name, Name(candidates[0])) then Some(candidates[0])
    else FirstByName(name, candidates[1..])
  }

  function GetByName(name: string): (r: Option<SignType>)
  {
    FirstByName(name, Values)
  }

  /** The lookup finds a type exactly when that type's name matches. */
  lemma GetByNameSpec(name: string, t: SignType)
    ensures GetByName(name) == Some(t) <==> EqualsIgnoreCase(name, Name(t))
  {
    if EqualsIgnoreCase(name, Name(t)) && GetByName(name) != Some(t) {
      var u := GetByName(name);
      if u.Some? {
        NamesDistinct(name, t, u.value);
      }
    }
  }

  /** No name other than a case variant of a type's name is accepted. */
  lemma GetByNameNone(name: string)
    ensures GetByName(name).None? <==> !EqualsIgnoreCase(name, "deposit") && !EqualsIgnoreCase(name, "withdraw")
  {
    GetByNameSpec(name, Deposit);
    GetByNameSpec(name, Withdraw);
    var r := GetByName(name);
    if r.Some? {
      assert r.value == Deposit || r.value == Withdraw;
    }
  }

  /** At most one type matches any input: the two names differ even ignoring case. */
  lemma NamesDistinct(name: string, t: SignType, u: SignType)
    requires EqualsIgnoreCase(name, Name(t)) && EqualsIgnoreCase(name, Name(u))
    ensures t == u
  {
  }

  /** Round trip: a type is found by its own name. */
  lemma GetByOwnName(t: SignType)
    ensures GetByName(Name(t)) == Some(t)
  {
    assert CharEqualsIgnoreCase('d', 'd');
    GetByNameSpec(Name(t), t);
  }

  /** Round trip with any mix of upper and lower case in the name. */
  lemma GetByCaseVariant(t: SignType, name: string)
    requires |name| == |Name(t)|
    requires forall i :: 0 <= i < |name| ==> name[i] == Name(t)[i] || name[i] == ToUpperCase(Name(t)[i])
    ensures GetByName(name) == Some(t)
  {
    CaseVariantEqualsIgnoreCase(Name(t), name);
    EqualsIgnoreCaseSymmetric(Name(t), name);
    GetByNameSpec(name, t);
  }

  /** For example, "DEPOSIT" and "Withdraw" parse. */
  lemma UpperCaseNamesParse()
    ensures GetByName("DEPOSIT") == Some(Deposit)
    ensures GetByName("Withdraw") == Some(Withdraw)
  {
    GetByCaseVariant(Deposit, "DEPOSIT");
    GetByCaseVariant(Withdraw, "Withdraw");
  }
}
