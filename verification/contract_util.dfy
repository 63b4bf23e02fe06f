/** ContractUtil: which PACT contract a stub class belongs to, and the inputs of a
    contract read and written as one list. */
module ContractUtil {
  import opened Wrappers

  /** The stub classes the lookup can be asked about. `Stub` is the root of every stub
      hierarchy; the seven library classes are the registered ones; a `UserStub` is any
      other class, with its superclass. */
  datatype JavaClass =
    | Stub
    | MapStub
    | ReduceStub
    | CoGroupStub
    | CrossStub
    | MatchStub
    | InputFormat
    | OutputFormat
    | UserStub(name: string, superclass: JavaClass)

  /** The contract classes the registry maps to. */
  datatype ContractClass =
    | MapContract
    | ReduceContract
    | CoGroupContract
    | CrossContract
    | MatchContract
    | DataSourceContract
    | DataSinkContract

  /** STUB_CONTRACTS, filled by the static initializer. */
  const StubContracts: map<JavaClass, ContractClass> :=
    map[MapStub := MapContract,
        ReduceStub := ReduceContract,
        CoGroupStub := CoGroupContract,
        CrossStub := CrossContract,
        MatchStub := MatchContract,
        InputFormat := DataSourceContract,
        OutputFormat := DataSinkContract]

  /** How far a class is below `Stub`. */
  function Depth(c: JavaClass): nat
  {
    match c
    case Stub => 0
    case UserStub(_, s) => Depth(s) + 1
    case _ => 1
  }

  /** Class.getSuperclass for a stub class other than `Stub`; the library classes are
      taken to extend `Stub` directly. */
  function Superclass(c: JavaClass): (s: JavaClass)
    requires c != Stub
    ensures Depth(s) < Depth(c)
  {
    if c.UserStub? then c.superclass else Stub
  }

  /** getContractClass: the registered contract of the class, or else of its superclass,
      stopping with none at `Stub`. */
  function GetContractClass(c: JavaClass): (contract: Option<ContractClass>)
    ensures c in StubContracts ==> contract == Some(StubContracts[c])
    ensures contract.Some? ==> contract.value in StubContracts.Values
    decreases Depth(c)
  {
    var contract := if c in StubContracts then Some(StubContracts[c]) else None;
    if contract.None? && c != Stub then GetContractClass(Superclass(c)) else contract
  }

  /** The classes the lookup visits, from the class itself up to `Stub`. */
  function Ancestors(c: JavaClass): (chain: seq<JavaClass>)
    ensures |chain| == Depth(c) + 1
    ensures chain[0] == c && chain[|chain| - 1] == Stub
    decreases Depth(c)
  {
    if c == Stub then [Stub] else [c] + Ancestors(Superclass(c))
  }

  /** Each registered stub class maps to its own contract class, and `Stub` to none. */
  lemma RegisteredStubs()
    ensures GetContractClass(MapStub) == Some(MapContract)
    ensures GetContractClass(ReduceStub) == Some(ReduceContract)
    ensures GetContractClass(CoGroupStub) == Some(CoGroupContract)
    ensures GetContractClass(CrossStub) == Some(CrossContract)
    ensures GetContractClass(MatchStub) == Some(MatchContract)
    ensures GetContractClass(InputFormat) == Some(DataSourceContract)
    ensures GetContractClass(OutputFormat) == Some(DataSinkContract)
    ensures GetContractClass(Stub) == None
  {
  }

  /** An unregistered class other than `Stub` gets the contract of its superclass. */
  lemma UnregisteredInherits(c: JavaClass)
    requires c != Stub && c !in StubContracts
    ensures GetContractClass(c) == GetContractClass(Superclass(c))
  {
  }

  /** The lookup finds nothing exactly when no class on the chain from `c` to `Stub` is
      registered. */
  lemma {:induction false} NoneWithoutRegisteredAncestor(c: JavaClass)
    ensures GetContractClass(c) == None <==> forall i :: 0 <= i < |Ancestors(c)| ==> Ancestors(c)[i] !in StubContracts
    decreases Depth(c)
  {
    var chain := Ancestors(c);
    if c != Stub && c !in StubContracts {
      var rest := Ancestors(Superclass(c));
      NoneWithoutRegisteredAncestor(Superclass(c));
      assert chain == [c] + rest;
      assert forall i :: 0 < i < |chain| ==> chain[i] == rest[i - 1];
      if GetContractClass(c) != None {
        var k :| 0 <= k < |rest| && rest[k] in StubContracts;
        assert chain[k + 1] == rest[k];
      }
    }
  }

  /** The lookup finds the nearest registered ancestor: when the class at position i of
      the chain is the first registered one, the result is its contract. */
  lemma {:induction false} NearestRegisteredAncestor(c: JavaClass, i: nat)
    requires i < |Ancestors(c)| && Ancestors(c)[i] in StubContracts
    requires forall j :: 0 <= j < i ==> Ancestors(c)[j] !in StubContracts
    ensures GetContractClass(c) == Some(StubContracts[Ancestors(c)[i]])
    decreases Depth(c)
  {
    if i > 0 {
      var chain := Ancestors(c);
      var rest := Ancestors(Superclass(c));
      assert chain == [c] + rest;
      forall j | 0 <= j < i - 1 ensures rest[j] !in StubContracts {
        assert rest[j] == chain[j + 1];
      }
      NearestRegisteredAncestor(Superclass(c), i - 1);
    }
  }

  /** The kinds of contract that getInputs and setInputs tell apart with instanceof, in
      the order they test them; `Other` is every contract without inputs, such as a data
      source. */
  datatype ContractKind = DataSink | SingleInput | DualInput | Other

  /** The kind of each registered contract class. */
  function KindOf(c: ContractClass): ContractKind
  {
    match c
    case DataSinkContract => DataSink
    case MapContract => SingleInput
    case ReduceContract => SingleInput
    case CoGroupContract => DualInput
    case CrossContract => DualInput
    case MatchContract => DualInput
    case DataSourceContract => Other
  }

  /** The number of inputs a contract of the kind has. */
  function Arity(kind: ContractKind): nat
  {
    match kind
    case DataSink => 1
    case SingleInput => 1
    case DualInput => 2
    case Other => 0
  }

  /** A contract node of a PACT plan with its input slots: `input` for a data sink or a
      single-input contract, `firstInput` and `secondInput` for a dual-input contract.
      A slot may be empty (Java null). */
  class Contract {
    const kind: ContractKind
    var input: Contract?
    var firstInput: Contract?
    var secondInput: Contract?

    constructor (kind: ContractKind)
      ensures this.kind == kind && input == null && firstInput == null && secondInput == null
    {
      this.kind := kind;
      input := null;
      firstInput := null;
      secondInput := null;
    }
  }

  /** getInputs: the contract's inputs in order, as many as its kind has. */
  function GetInputs(contract: Contract): (inputs: seq<Contract?>)
    reads contract
    ensures |inputs| == Arity(contract.kind)
    ensures contract.kind == DataSink || contract.kind == SingleInput ==> inputs[0] == contract.input
    ensures contract.kind == DualInput ==> inputs[0] == contract.firstInput && inputs[1] == contract.secondInput
  {
    match contract.kind
    case DataSink => [contract.input]
    case SingleInput => [contract.input]
    case DualInput => [contract.firstInput, contract.secondInput]
    case Other => []
  }

  /** setInputs: rejects a list whose length is not the contract's number of inputs
      before changing anything, otherwise assigns the inputs in order, so that getInputs
      reads them back; a contract of no known kind is left alone whatever the list. */
  method SetInputs(contract: Contract, inputs: seq<Contract?>) returns (outcome: Outcome)
    modifies contract
    ensures contract.kind != Other && |inputs| != Arity(contract.kind) ==> outcome == Fail(IllegalArgument)
    ensures outcome.Pass? <==> contract.kind == Other || |inputs| == Arity(contract.kind)
    ensures outcome.Pass? && contract.kind != Other ==> GetInputs(contract) == inputs
    ensures contract.kind != DualInput ==> contract.firstInput == old(contract.firstInput) && contract.secondInput == old(contract.secondInput)
    ensures contract.kind == DualInput ==> contract.input == old(contract.input)
    ensures outcome.Fail? || contract.kind == Other ==> unchanged(contract)
    ensures inputs == old(GetInputs(contract)) ==> outcome == Pass && unchanged(contract)
  {
    match contract.kind {
      case DataSink =>
        if |inputs| != 1 {
          return Fail(IllegalArgument);
        }
        contract.input := inputs[0];
      case SingleInput =>
        if |inputs| != 1 {
          return Fail(IllegalArgument);
        }
        contract.input := inputs[0];
      case DualInput =>
        if |inputs| != 2 {
          return Fail(IllegalArgument);
        }
        contract.firstInput := inputs[0];
        contract.secondInput := inputs[1];
      case Other =>
    }
    outcome := Pass;
  }

  /** The number of inputs of the contract a registered stub class maps to: one for map,
      reduce and output-format stubs, two for co-group, cross and match stubs, none for
      input formats. */
  lemma RegisteredArity()
    ensures Arity(KindOf(GetContractClass(MapStub).value)) == 1
    ensures Arity(KindOf(GetContractClass(ReduceStub).value)) == 1
    ensures Arity(KindOf(GetContractClass(OutputFormat).value)) == 1
    ensures Arity(KindOf(GetContractClass(CoGroupStub).value)) == 2
    ensures Arity(KindOf(GetContractClass(CrossStub).value)) == 2
    ensures Arity(KindOf(GetContractClass(MatchStub).value)) == 2
    ensures Arity(KindOf(GetContractClass(InputFormat).value)) == 0
  {
    RegisteredStubs();
  }
}
