/** The optional value used wherever the C# code holds a nullable reference. */
module Optional {
  datatype Option<+T> = None | Some(value: T)
}

/**
 * The request side of the translator: the parts of Kendo's
 * `DataSourceRequest` and its descriptors that `MongoHelper` reads or writes.
 */
module Kendo {
  import opened Optional

  /** C#'s 32-bit `int`. */
  newtype int32 = x: int | -0x8000_0000 <= x < 0x8000_0000

  /** A .NET `Type`, named by its full name. */
  type TypeName = string

  /** The members of Kendo's `FilterOperator` enum. */
  datatype FilterOperator =
    | IsLessThan | IsLessThanOrEqualTo | IsEqualTo | IsNotEqualTo
    | IsGreaterThanOrEqualTo | IsGreaterThan | StartsWith | EndsWith
    | Contains | IsContainedIn | DoesNotContain | IsNull | IsNotNull
    | IsEmpty | IsNotEmpty | IsNullOrEmpty | IsNotNullOrEmpty
  {
    /** The text `ToString()` gives for the enum member. */
    function Name(): string {
      match this
      case IsLessThan => "IsLessThan"
      case IsLessThanOrEqualTo => "IsLessThanOrEqualTo"
      case IsEqualTo => "IsEqualTo"
      case IsNotEqualTo => "IsNotEqualTo"
      case IsGreaterThanOrEqualTo => "IsGreaterThanOrEqualTo"
      case IsGreaterThan => "IsGreaterThan"
      case StartsWith => "StartsWith"
      case EndsWith => "EndsWith"
      case Contains => "Contains"
      case IsContainedIn => "IsContainedIn"
      case DoesNotContain => "DoesNotContain"
      case IsNull => "IsNull"
      case IsNotNull => "IsNotNull"
      case IsEmpty => "IsEmpty"
      case IsNotEmpty => "IsNotEmpty"
      case IsNullOrEmpty => "IsNullOrEmpty"
      case IsNotNullOrEmpty => "IsNotNullOrEmpty"
    }
  }

  datatype ListSortDirection = Ascending | Descending

  datatype FilterCompositionLogicalOperator = And | Or

  datatype SortDescriptor = SortDescriptor(member: string, sortDirection: ListSortDirection)

  /**
   * A descriptor's `Value`: `null`, or an object of some runtime type whose
   * `ToString()` is `text`. The grid binder delivers values as strings.
   */
  datatype Value = Null | Obj(runtimeType: TypeName, text: string)
  {
    /** What C# string concatenation puts in place of the value: "" for null. */
    function Concatenated(): string {
      match this
      case Null => ""
      case Obj(_, text) => text
    }
  }

  /** The fields of a `FilterDescriptor` at one moment. */
  datatype DescriptorState = DescriptorState(
    member: string,
    operator: FilterOperator,
    value: Value,
    memberType: Option<TypeName>)

  /**
   * Kendo's `FilterDescriptor`: a mutable object, because the translator
   * writes the resolved `MemberType` and the converted `Value` back into it.
   */
  class FilterDescriptor {
    var member: string
    var operator: FilterOperator
    var value: Value
    var memberType: Option<TypeName>

    /** As the grid binder creates it: no member type yet. */
    constructor (member: string, operator: FilterOperator, value: Value)
      ensures State() == DescriptorState(member, operator, value, None)
    {
      this.member := member;
      this.operator := operator;
      this.value := value;
      this.memberType := None;
    }

    function State(): DescriptorState
      reads this
    {
      DescriptorState(member, operator, value, memberType)
    }
  }

  /**
   * An `IFilterDescriptor`: a simple descriptor, or a `CompositeFilterDescriptor`
   * whose `FilterDescriptors` may again hold either kind.
   */
  datatype FilterNode =
    | Simple(descriptor: FilterDescriptor)
    | Composite(logicalOperator: FilterCompositionLogicalOperator, filterDescriptors: seq<FilterNode>)

  /** The fields of `DataSourceRequest` that the translator reads. */
  datatype DataSourceRequest = DataSourceRequest(
    page: int32,
    pageSize: int32,
    sorts: seq<SortDescriptor>,
    filters: seq<FilterNode>)

  datatype DataSourceResult<D> = DataSourceResult(data: seq<D>, total: int32)

  /** The descriptor object a node is, if it is a simple one. */
  function Own(n: FilterNode): set<FilterDescriptor> {
    if n.Simple? then {n.descriptor} else {}
  }

  /**
   * The descriptor objects the translator can reach from one top-level node:
   * the node itself, or a composite's simple children.
   */
  function NodeDescriptors(n: FilterNode): set<FilterDescriptor> {
    match n
    case Simple(d) => {d}
    case Composite(_, children) => set j, o | 0 <= j < |children| && o in Own(children[j]) :: o
  }

  /** Every descriptor object the translator can reach from a filter list. */
  function Reached(nodes: seq<FilterNode>): set<FilterDescriptor> {
    set k, o | 0 <= k < |nodes| && o in NodeDescriptors(nodes[k]) :: o
  }

  /** A composite's child as the translator sees it. */
  datatype ChildView = SimpleChild(state: DescriptorState) | NestedComposite

  /** A top-level filter node as the translator sees it, with descriptor states in place of objects. */
  datatype NodeView =
    | SimpleView(state: DescriptorState)
    | CompositeView(logicalOperator: FilterCompositionLogicalOperator, children: seq<ChildView>)

  function ChildViewOf(c: FilterNode): ChildView
    reads Own(c)
  {
    match c
    case Simple(d) => SimpleChild(d.State())
    case Composite(_, _) => NestedComposite
  }

  function NodeViewOf(n: FilterNode): NodeView
    reads NodeDescriptors(n)
  {
    match n
    case Simple(d) => SimpleView(d.State())
    case Composite(op, children) =>
      CompositeView(op, seq(|children|, j requires 0 <= j < |children| reads NodeDescriptors(n) => ChildViewOf(children[j])))
  }

  /** A snapshot of a filter list: what translating it depends on. */
  function Views(nodes: seq<FilterNode>): (vs: seq<NodeView>)
    reads Reached(nodes)
    ensures |vs| == |nodes|
  {
    seq(|nodes|, k requires 0 <= k < |nodes| reads Reached(nodes) => NodeViewOf(nodes[k]))
  }
}
