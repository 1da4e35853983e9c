/** The resource list of a Terraform state, edited in place, as a map from (type, name) to instances. */
module TerraformState {
  import opened Wrappers
  import opened DependencyGraph

  /** Resource attributes as a provider returns them; nil is possible. */
  datatype Attributes = Nil | Attributes(fields: map<string, Value>)

  datatype Id = Id(rtype: string, name: string)

  datatype Entry = Entry(id: Id, instances: seq<Attributes>)

  /** The contents of a state file. */
  datatype StateFile = StateFile(serial: nat, lineage: string, entries: seq<Entry>)

  /** The index of the first entry for an id, or the number of entries. */
  function IndexOfId(entries: seq<Entry>, id: Id): (i: nat)
    ensures i <= |entries|
    ensures i < |entries| ==> entries[i].id == id
  {
    if entries == [] || entries[0].id == id then 0 else 1 + IndexOfId(entries[1..], id)
  }

  /** The instances recorded for an id. */
  function Lookup(entries: seq<Entry>, id: Id): Option<seq<Attributes>> {
    if entries == [] then None
    else if entries[0].id == id then Some(entries[0].instances)
    else Lookup(entries[1..], id)
  }

  ghost predicate Unique(entries: seq<Entry>) {
    entries == [] || (Lookup(entries[1..], entries[0].id).None? && Unique(entries[1..]))
  }

  /** What updating does to the instances of an id: the first one is replaced, or becomes the only one. */
  function Renewed(before: Option<seq<Attributes>>, a: Attributes): seq<Attributes> {
    if before.None? || before.value == [] then [a] else before.value[0 := a]
  }

  lemma {:induction false} IndexFindsLookup(entries: seq<Entry>, id: Id)
    ensures Lookup(entries, id) ==
            if IndexOfId(entries, id) == |entries| then None
            else Some(entries[IndexOfId(entries, id)].instances)
  {
    if entries != [] && entries[0].id != id { IndexFindsLookup(entries[1..], id); }
  }

  /** The in-place replacement changes the one id and no other. */
  lemma {:induction false} LookupReplaced(entries: seq<Entry>, id: Id, instances: seq<Attributes>, other: Id)
    requires IndexOfId(entries, id) < |entries|
    ensures var after := entries[IndexOfId(entries, id) := Entry(id, instances)];
            && Lookup(after, other) == (if other == id then Some(instances) else Lookup(entries, other))
            && (Unique(entries) ==> Unique(after))
  {
    var i := IndexOfId(entries, id);
    var after := entries[i := Entry(id, instances)];
    if i > 0 {
      LookupReplaced(entries[1..], id, instances, other);
      LookupReplaced(entries[1..], id, instances, entries[0].id);
      assert after[1..] == entries[1..][i - 1 := Entry(id, instances)];
    } else {
      assert after[1..] == entries[1..];
    }
  }

  lemma {:induction false} LookupAppended(entries: seq<Entry>, id: Id, instances: seq<Attributes>, other: Id)
    requires IndexOfId(entries, id) == |entries|
    ensures var after := entries + [Entry(id, instances)];
            && Lookup(after, other) == (if other == id then Some(instances) else Lookup(entries, other))
            && (Unique(entries) ==> Unique(after))
  {
    var after := entries + [Entry(id, instances)];
    if entries != [] {
      LookupAppended(entries[1..], id, instances, other);
      LookupAppended(entries[1..], id, instances, entries[0].id);
      assert after[1..] == entries[1..] + [Entry(id, instances)];
    } else {
      assert after[1..] == [];
    }
  }

  /** Removing the first entry for an id leaves the others; it leaves none for the id if entries are unique. */
  lemma {:induction false} LookupRemoved(entries: seq<Entry>, id: Id, other: Id)
    requires IndexOfId(entries, id) < |entries|
    ensures var i := IndexOfId(entries, id); var after := entries[..i] + entries[i + 1..];
            && (other != id ==> Lookup(after, other) == Lookup(entries, other))
            && (Unique(entries) ==> Unique(after) && Lookup(after, id).None?)
  {
    var i := IndexOfId(entries, id);
    var after := entries[..i] + entries[i + 1..];
    if i > 0 {
      LookupRemoved(entries[1..], id, other);
      LookupRemoved(entries[1..], id, entries[0].id);
      assert after[0] == entries[0];
      assert after[1..] == entries[1..][..i - 1] + entries[1..][i..];
    } else {
      assert after == entries[1..];
    }
  }

  /** The only change between two entry lists is at `id`, which now has `now`. */
  ghost predicate ChangedOnly(before: seq<Entry>, after: seq<Entry>, id: Id, now: Option<seq<Attributes>>) {
    && Lookup(after, id) == now
    && (forall other :: other != id ==> Lookup(after, other) == Lookup(before, other))
    && (Unique(before) ==> Unique(after))
  }

  /** A loaded state. */
  class State {
    var serial: nat
    var lineage: string
    var entries: seq<Entry>

    constructor (file: StateFile)
      ensures serial == file.serial && lineage == file.lineage && entries == file.entries
    {
      serial, lineage, entries := file.serial, file.lineage, file.entries;
    }

    method Snapshot() returns (file: StateFile)
      ensures file == StateFile(serial, lineage, entries)
    {
      file := StateFile(serial, lineage, entries);
    }

    /** findResourceInState: the index of the first entry, -1 if there is none. */
    method FindResource(id: Id) returns (index: int)
      ensures index == -1 || 0 <= index < |entries|
      ensures index == -1 <==> Lookup(entries, id).None?
      ensures index >= 0 ==> index == IndexOfId(entries, id) && entries[index].id == id
      ensures forall j :: 0 <= j < (if index == -1 then |entries| else index) ==> entries[j].id != id
      ensures index >= 0 ==> Lookup(entries, id) == Some(entries[index].instances)
    {
      IndexFindsLookup(entries, id);
      for i := 0 to |entries|
        invariant IndexOfId(entries, id) == i + IndexOfId(entries[i..], id)
        invariant forall j :: 0 <= j < i ==> entries[j].id != id
      {
        if entries[i].id == id {
          return i;
        }
      }
      return -1;
    }

    /** updateResourceInState. */
    method UpdateResource(id: Id, a: Attributes)
      modifies this
      ensures ChangedOnly(old(entries), entries, id, Some(Renewed(old(Lookup(entries, id)), a)))
      ensures var was, now := old(Lookup(entries, id)), Lookup(entries, id);
              && now.Some? && now.value != [] && now.value[0] == a
              && now.value[1..] == if was.Some? && was.value != [] then was.value[1..] else []
      ensures serial == old(serial) + 1 && lineage == old(lineage)
    {
      var index := FindResource(id);
      IndexFindsLookup(entries, id);
      if index == -1 {
        forall other { LookupAppended(entries, id, [a], other); }
        entries := entries + [Entry(id, [a])];
      } else {
        var instances := entries[index].instances;
        var renewed := if |instances| == 0 then [a] else instances[0 := a];
        forall other { LookupReplaced(entries, id, renewed, other); }
        entries := entries[index := Entry(id, renewed)];
      }
      serial := serial + 1;
    }

    /** removeResourceFromState. */
    method RemoveResource(id: Id) returns (found: bool)
      modifies this
      ensures found == old(Lookup(entries, id)).Some?
      ensures !found ==> entries == old(entries) && serial == old(serial)
      ensures found ==> serial == old(serial) + 1
      ensures found ==> forall other :: other != id ==> Lookup(entries, other) == old(Lookup(entries, other))
      ensures found && old(Unique(entries)) ==> ChangedOnly(old(entries), entries, id, None)
      ensures lineage == old(lineage)
    {
      var index := FindResource(id);
      if index == -1 {
        return false;
      }
      IndexFindsLookup(entries, id);
      forall other { LookupRemoved(entries, id, other); }
      entries := entries[..index] + entries[index + 1..];
      serial := serial + 1;
      return true;
    }
  }

  /** Without uniqueness one removal is not enough: a second entry for the id takes the first one's place. */
  lemma DuplicateSurvivesRemoval(id: Id, a: Attributes, b: Attributes)
    ensures var entries := [Entry(id, [a]), Entry(id, [b])];
            var i := IndexOfId(entries, id);
            Lookup(entries[..i] + entries[i + 1..], id) == Some([b])
  {
    var entries := [Entry(id, [a]), Entry(id, [b])];
    assert entries[..0] + entries[1..] == [Entry(id, [b])];
  }
}
