/** The registry that gives every message type its 16-bit id, in the order
    the types are added to the application. A message type is named by a
    string. Both peers of a connection must add the same types in the same
    order for their ids to agree. */
module MessageRegistry {
  import opened Wire

  type TypeName = seq<char>

  /** The ids that adding the types `history` in turn assigns: each type has
      the position at which it was last added. */
  function Assigned(history: seq<TypeName>): (ids: map<TypeName, nat>)
    ensures ids.Keys == set n | n in history
  {
    if history == [] then map[]
    else Assigned(history[..|history| - 1])[history[|history| - 1] := |history| - 1]
  }

  /** The id of a type is the position of its last addition: the type is
      there, and it is not added again later. */
  lemma {:induction false} AssignedIsLast(history: seq<TypeName>, name: TypeName)
    requires name in history
    ensures var i := Assigned(history)[name];
      i < |history| && history[i] == name && forall j | i < j < |history| :: history[j] != name
    decreases |history|
  {
    var n := |history| - 1;
    if history[n] != name {
      var prefix := history[..n];
      assert name in prefix by {
        var k :| 0 <= k < |history| && history[k] == name;
        assert k < n && prefix[k] == name;
      }
      AssignedIsLast(prefix, name);
    }
  }

  /** Different types never share an id. */
  lemma AssignedInjective(history: seq<TypeName>, a: TypeName, b: TypeName)
    requires a in history && b in history && a != b
    ensures Assigned(history)[a] != Assigned(history)[b]
  {
    AssignedIsLast(history, a);
    AssignedIsLast(history, b);
  }

  /** The next id (`NextMessageId`) and the id of every type added so far
      (the `MessageId<T>` resources). */
  class MessageRegistry {
    var nextId: u16
    var ids: map<TypeName, u16>
    ghost var history: seq<TypeName>

    ghost predicate Valid()
      reads this
    {
      && nextId as int == |history|
      && ids.Keys == Assigned(history).Keys
      && forall n | n in ids :: ids[n] as int == Assigned(history)[n]
    }

    /** A fresh application has added no type; the first id is 0. */
    constructor ()
      ensures Valid() && nextId == 0 && ids == map[] && history == []
    {
      nextId, ids, history := 0, map[], [];
    }

    /** `add_message`: the type gets the next id and the counter moves on.
        Adding a type again gives it a new id. The counter is 16 bits wide and
        its overflow panics, so at most 65535 additions are possible. */
    method AddMessage(name: TypeName) returns (id: u16)
      requires Valid() && nextId < 0xFFFF
      modifies this
      ensures Valid()
      ensures id == old(nextId) && nextId as int == old(nextId) as int + 1
      ensures ids == old(ids)[name := id] && history == old(history) + [name]
      ensures forall n | n in old(ids) :: old(ids)[n] < id
    {
      forall n | n in ids
        ensures ids[n] < nextId
      {
        AssignedIsLast(history, n);
      }
      id := nextId;
      nextId := nextId + 1;
      ids := ids[name := id];
      history := history + [name];
      assert history[..|history| - 1] == old(history);
    }
  }
}
