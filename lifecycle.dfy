/**
 * A device's life across any sequence of insert and update requests: rows are only ever
 * added, every row stays under its own serial number, and the four init-only fields of a
 * stored row never change.
 */
module Lifecycle {
  import opened Guids
  import opened Devices
  import opened Dtos
  import opened Repository
  import opened InsertCommand
  import opened UpdateCommand

  /** A request, with the Guid the key generator hands out while an insert is handled. */
  datatype Command =
    | InsertRequest(insert: InsertDeviceCommand, generated: Guid)
    | UpdateRequest(update: UpdateDeviceCommand)

  /** The table after one request, whatever it answered. */
  function Apply(t: Table, conv: Conversions, c: Command): Table
  {
    match c
    case InsertRequest(q, g) => HandleInsert(t, conv, q, g).table
    case UpdateRequest(q) => HandleUpdate(t, conv, q).table
  }

  /** The table after a sequence of requests handled one at a time, in order. */
  function Run(t: Table, conv: Conversions, cs: seq<Command>): Table
    decreases |cs|
  {
    if cs == [] then t else Run(Apply(t, conv, cs[0]), conv, cs[1..])
  }

  /** Every stored row keeps its place and its init-only fields. */
  ghost predicate KeepsRows(before: Table, after: Table)
  {
    forall k :: k in before ==> k in after && SameIdentity(after[k], before[k])
  }

  lemma {:induction false} ApplyKeepsRows(t: Table, conv: Conversions, c: Command)
    ensures KeepsRows(t, Apply(t, conv, c))
    ensures KeyedBySerial(t) ==> KeyedBySerial(Apply(t, conv, c))
  {
  }

  /** Write-once, over any history: no request removes a row or changes its init-only fields. */
  lemma {:induction false} RunKeepsRows(t: Table, conv: Conversions, cs: seq<Command>)
    ensures KeepsRows(t, Run(t, conv, cs))
    ensures KeyedBySerial(t) ==> KeyedBySerial(Run(t, conv, cs))
    decreases |cs|
  {
    if cs != [] {
      var next := Apply(t, conv, cs[0]);
      ApplyKeepsRows(t, conv, cs[0]);
      RunKeepsRows(next, conv, cs[1..]);
    }
  }

  /** The key generator never hands out Guid.Empty. */
  ghost predicate GeneratesNonEmpty(cs: seq<Command>)
  {
    forall i :: 0 <= i < |cs| && cs[i].InsertRequest? ==> cs[i].generated != EmptyGuid
  }

  lemma {:induction false} ApplyKeepsEmptyGuidOut(t: Table, conv: Conversions, c: Command)
    requires EmptyGuid !in t
    requires c.InsertRequest? ==> c.generated != EmptyGuid
    ensures EmptyGuid !in Apply(t, conv, c)
  {
  }

  /**
   * No history stores a row under Guid.Empty: a Guid.Empty serial number is always replaced by
   * a generated key, so POSTing Guid.Empty bodies never makes them conflict with one another.
   */
  lemma {:induction false} RunKeepsEmptyGuidOut(t: Table, conv: Conversions, cs: seq<Command>)
    requires EmptyGuid !in t
    requires GeneratesNonEmpty(cs)
    ensures EmptyGuid !in Run(t, conv, cs)
    decreases |cs|
  {
    if cs != [] {
      ApplyKeepsEmptyGuidOut(t, conv, cs[0]);
      assert GeneratesNonEmpty(cs[1..]) by {
        forall i | 0 <= i < |cs[1..]| && cs[1..][i].InsertRequest?
          ensures cs[1..][i].generated != EmptyGuid
        {
          assert cs[1..][i] == cs[i + 1];
        }
      }
      RunKeepsEmptyGuidOut(Apply(t, conv, cs[0]), conv, cs[1..]);
    }
  }
}
