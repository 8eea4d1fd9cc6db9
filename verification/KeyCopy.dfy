/** The store's deep copy of a contribution, on the heap. */
module KeyCopy {
  import opened Basics
  import opened KeyModel

  class Cell {
    var value: Instant

    constructor (value: Instant)
      ensures this.value == value
    {
      this.value := value;
    }
  }

  /** A record as sources build it: slices and the expiry are shared by reference and may be nil. */
  class RecordObject {
    var name: string
    var digest: Digest
    var allowedModels: array?<string>
    var allowedRoutes: array?<string>
    var expiresAt: Cell?
    var source: string

    /** Everything the record can be changed through. */
    ghost function Reach(): set<object?>
      reads this
    {
      {this, allowedModels, allowedRoutes, expiresAt}
    }

    ghost function View(): Record
      reads this, Reach()
    {
      Record(name, digest, Elements(allowedModels), Elements(allowedRoutes),
             if expiresAt == null then None else Some(expiresAt.value), source)
    }

    constructor Copy(record: RecordObject, source: string)
      ensures View() == record.View().(source := source)
      ensures fresh(Reach() - {null})
    {
      name, digest := record.name, record.digest;
      this.source := source;
      new;
      allowedModels := CopySlice(record.allowedModels);
      allowedRoutes := CopySlice(record.allowedRoutes);
      expiresAt := null;
      if record.expiresAt != null {
        expiresAt := new Cell(record.expiresAt.value);
      }
    }
  }

  ghost function Elements(slice: array?<string>): seq<string>
    reads slice
  {
    if slice == null then [] else slice[..]
  }

  /** `append([]string(nil), slice...)`: nothing appended leaves nil. */
  method CopySlice(slice: array?<string>) returns (copy: array?<string>)
    ensures Elements(copy) == Elements(slice)
    ensures copy != null ==> fresh(copy)
  {
    if slice == null || slice.Length == 0 {
      return null;
    }
    copy := new string[slice.Length](i requires 0 <= i < slice.Length reads slice => slice[i]);
    assert copy[..] == slice[..];
  }

  ghost function ViewOf(record: RecordObject?): Option<Record>
    reads record, if record == null then {} else record.Reach()
  {
    if record == null then None else Some(record.View())
  }

  /** `copy` is `record` as the store keeps it: `KeyModel.Owned`, record by record. */
  ghost predicate IsCopy(record: Option<Record>, copy: Option<Record>, source: string) {
    if record.None? then copy.None? else copy == Some(record.value.(source := source))
  }

  ghost predicate Apart(a: RecordObject?, b: RecordObject?)
    reads a, b
  {
    a != null && b != null ==> a.Reach() * b.Reach() <= {null}
  }

  /** Every record is copied, none shares anything with what existed before or with another copy, even
      where the source listed one record twice. */
  method Clone(records: seq<RecordObject?>, source: string) returns (owned: seq<RecordObject?>)
    ensures |owned| == |records|
    ensures forall j :: 0 <= j < |records| ==> IsCopy(ViewOf(records[j]), ViewOf(owned[j]), source)
    ensures forall j :: 0 <= j < |owned| && owned[j] != null ==> fresh(owned[j].Reach() - {null})
    ensures forall j, k :: 0 <= j < k < |owned| ==> Apart(owned[j], owned[k])
  {
    owned := [];
    for i := 0 to |records|
      invariant |owned| == i
      invariant forall j :: 0 <= j < i ==> IsCopy(ViewOf(records[j]), ViewOf(owned[j]), source)
      invariant forall j :: 0 <= j < i && owned[j] != null ==> fresh(owned[j].Reach() - {null})
      invariant forall j, k :: 0 <= j < k < i ==> Apart(owned[j], owned[k])
    {
      if records[i] == null {
        owned := owned + [null];
        continue;
      }
      var copy := new RecordObject.Copy(records[i], source);
      owned := owned + [copy];
    }
  }
}
