/** The bulk save as the builder runs it: mutation objects, node and spec arrays filled in
    place, each method equal to its function in `BulkCreate`. */
module BulkSave {
  import opened PyText
  import opened BulkCreate

  class AccountMutation {
    var fields: Fields
    var done: bool
    var id: Option<int>

    constructor (f: Fields)
      ensures Value() == Record(f, false, None)
    {
      fields, done, id := f, false, None;
    }

    function Value(): Record
      reads this
    {
      Record(fields, done, id)
    }
  }

  class AccountCreateBulk {
    const bulk: Bulk
    const own: array<AccountMutation>        // the mutation each builder holds
    const nodes: array<Option<Account>>
    const specs: array<Option<Spec>>
    var batches: nat                         // batch writes sent
    ghost var pool: seq<AccountMutation>     // every mutation object there is
    ghost var slot: seq<nat>                 // where each builder's mutation is among them
    ghost var writes: seq<seq<Option<Spec>>>
    ghost var trace: seq<Event>

    ghost predicate Valid()
      reads this, own
    {
      && own.Length == nodes.Length == specs.Length == |slot| == |bulk.builders|
      && (forall k | 0 <= k < |slot| :: slot[k] < |pool| && own[k] == pool[slot[k]])
      && (forall j, k | 0 <= j < k < |pool| :: pool[j] != pool[k])
      && batches == |writes|
    }

    ghost function Records(): (r: seq<Record>)
      reads this, pool
      ensures |r| == |pool|
    {
      seq(|pool|, k requires 0 <= k < |pool| reads this, pool => pool[k].Value())
    }

    ghost function View(): (s: State)
      reads this, own, nodes, specs, pool
      requires Valid()
      ensures Fits(bulk, s)
    {
      State(Records(), slot, nodes[..], specs[..], writes, trace)
    }

    /** A new builder object: the defaults are filled in, and nothing has run. */
    constructor (b: Bulk)
      ensures Valid() && bulk == b && View() == Start(b)
      ensures fresh(own) && fresh(nodes) && fresh(specs) && forall k | 0 <= k < |pool| :: fresh(pool[k])
    {
      var n := |b.builders|;
      var made: seq<AccountMutation> := [];
      for i := 0 to n
        invariant |made| == i
        invariant forall k | 0 <= k < i :: fresh(made[k]) && made[k].Value() == Record(Prepared(b, k), false, None)
        invariant forall j, k | 0 <= j < k < i :: made[j] != made[k]
      {
        var f := FillDefaults(b, i);
        var m := new AccountMutation(f);
        made := made + [m];
      }
      bulk := b;
      own := new AccountMutation[n](i requires 0 <= i < n => made[i]);
      nodes := new Option<Account>[n](_ => None);
      specs := new Option<Spec>[n](_ => None);
      batches, pool, slot, writes, trace := 0, made, seq(n, i requires 0 <= i < n => i), [], [];
      new;
      assert View() == Start(b);
    }

    static method FillDefaults(b: Bulk, i: nat) returns (f: Fields)
      requires i < |b.builders|
      ensures f == Prepared(b, i)
    {
      f := b.builders[i].fields;
      var k := 0;
      while k < |DEFAULTED|
        invariant k <= |DEFAULTED|
        invariant Defaults(b.schema, f, k) == Prepared(b, i)
      {
        if DEFAULTED[k] !in f {
          if DEFAULTED[k] !in b.schema.defaults {
            return;
          }
          f := f[DEFAULTED[k] := b.schema.defaults[DEFAULTED[k]]];
        }
        k := k + 1;
      }
    }

    static method Check(schema: Schema, f: Fields) returns (fault: Option<Field>)
      ensures fault == Fault(schema, f, 0)
    {
      for k := 0 to |CHECKED|
        invariant Fault(schema, f, 0) == Fault(schema, f, k)
      {
        if Faulty(schema, f, CHECKED[k]) {
          return Some(CHECKED[k]);
        }
      }
      fault := None;
    }

    twostate predicate Extended()
      reads this
    {
      && old(pool) <= pool
      && forall k | |old(pool)| <= k < |pool| :: fresh(pool[k])
    }

    method RunMutator(i: nat, h: nat, mutation: AccountMutation, ghost m: nat) returns (err: Option<Error>)
      requires Valid() && i < |bulk.builders| && h <= |Hooks(bulk, i)|
      requires m < |pool| && mutation == pool[m]
      modifies this, own, nodes, specs, pool
      ensures Valid() && Extended()
      ensures Out(err, View()) == Mutate(bulk, i, h, m, old(View()))
      decreases |bulk.builders| - i, |Hooks(bulk, i)| - h, 2
    {
      hide Inner, Around;
      if h == |Hooks(bulk, i)| {
        err := RunInner(i, mutation, m);
        return;
      }
      trace := trace + [Enter(i, h)];
      assert View() == Log(old(View()), Enter(i, h));
      if Hooks(bulk, i)[h].refuses {
        err := Some(HookError(i, h));
      } else {
        err := RunHook(i, h, mutation, m);
      }
      label Left:
      trace := trace + [Exit(i, h)];
      assert View() == Log(old@Left(View()), Exit(i, h));
    }

    method RunHook(i: nat, h: nat, mutation: AccountMutation, ghost m: nat) returns (err: Option<Error>)
      requires Valid() && i < |bulk.builders| && h < |Hooks(bulk, i)|
      requires m < |pool| && mutation == pool[m]
      modifies this, own, nodes, specs, pool
      ensures Valid() && Extended()
      ensures Out(err, View()) == Around(bulk, i, h, m, old(View()))
      decreases |bulk.builders| - i, |Hooks(bulk, i)| - h, 1
    {
      hide Mutate;
      var k := Hooks(bulk, i)[h];
      ghost var (t, n) := Passing(k, m, View());
      var passed := PassOn(k, mutation, m);
      err := None;
      var c := 0;
      while c < k.calls && (c == 0 || !Stops(k, err))
        invariant c <= k.calls && Valid() && Extended() && n < |pool| && passed == pool[n]
        invariant Out(err, View()) == Calls(bulk, i, h, c, n, t)
      {
        err := RunMutator(i, h + 1, passed, n);
        c := c + 1;
      }
      CallsStop(bulk, i, h, c, k.calls, n, t);
      if err.Some? && !k.swallows {
        return;
      }
      err := if k.fails then Some(HookError(i, h)) else None;
    }

    /** The mutation a hook hands on: the one it was given, edited, or an edited copy. */
    method PassOn(k: Hook, mutation: AccountMutation, ghost m: nat) returns (passed: AccountMutation)
      requires Valid() && m < |pool| && mutation == pool[m]
      modifies this`pool, mutation
      ensures Valid() && Extended()
      ensures var (t, n) := Passing(k, m, old(View()));
              View() == t && passed == pool[n]
    {
      hide Edit;
      var f := Edit(k, mutation.fields);
      if k.copies {
        passed := new AccountMutation(f);
        pool := pool + [passed];
      } else {
        mutation.fields := f;
        passed := mutation;
      }
      assert View() == Passing(k, m, old(View())).0;
    }

    method RunInner(i: nat, mutation: AccountMutation, ghost m: nat) returns (err: Option<Error>)
      requires Valid() && i < |bulk.builders|
      requires m < |pool| && mutation == pool[m]
      modifies this, own, nodes, specs, pool
      ensures Valid() && Extended()
      ensures Out(err, View()) == Inner(bulk, i, m, old(View()))
      decreases |bulk.builders| - i, 0, 1
    {
      hide Fault, Mutate, Next;
      var fault := Check(bulk.schema, own[i].fields);
      if fault.Some? {
        trace := trace + [Checked(i, false)];
        assert View() == Log(old(View()), Checked(i, false));
        return Some(Invalid(i, fault.value));
      }
      AdoptMutation(i, mutation, m);
      err := RunNext(i);
      if err.None? { FinishMutation(i, mutation, m); }
    }

    method AdoptMutation(i: nat, mutation: AccountMutation, ghost m: nat)
      requires Valid() && i < |bulk.builders|
      requires m < |pool| && mutation == pool[m]
      modifies this`slot, this`trace, own, nodes, specs
      ensures Valid() && View() == Adopt(i, m, old(View()))
    {
      trace := trace + [Checked(i, true)];
      own[i], slot := mutation, slot[i := m];
      nodes[i] := Some(Account(mutation.fields, 0));
      specs[i] := Some(Spec(mutation.fields, None));
      assert Records() == old(Records());
    }

    method RunNext(i: nat) returns (err: Option<Error>)
      requires Valid() && i < |bulk.builders|
      modifies this, own, nodes, specs, pool
      ensures Valid() && Extended()
      ensures Out(err, View()) == Next(bulk, i, old(View()))
      decreases |bulk.builders| - i, 0, 0
    {
      hide Mutate, Write;
      if i + 1 < |bulk.builders| {
        err := RunMutator(i + 1, 0, own[i + 1], slot[i + 1]);
      } else {
        err := WriteBatch();
      }
    }

    method WriteBatch() returns (err: Option<Error>)
      requires Valid()
      modifies this`batches, this`writes, this`trace, specs
      ensures Valid()
      ensures Out(err, View()) == Write(bulk, old(View()))
      ensures err == match AnswerAt(bulk, old(batches)) case Stored(_) => None case Refused(c) => Some(WriteError(c))
    {
      var answer := if batches < |bulk.answers| then bulk.answers[batches] else Refused(false);
      assert answer == Reply(bulk, View());
      batches, writes, trace := batches + 1, writes + [specs[..]], trace + [Wrote(answer.Stored?)];
      match answer
      case Refused(constraint) => err := Some(WriteError(constraint));
      case Stored(ids) =>
        err := None;
        for k := 0 to specs.Length
          modifies specs
          invariant forall j | 0 <= j < k :: specs[j] == Ids(old(specs[..]), ids)[j]
          invariant forall j | k <= j < specs.Length :: specs[j] == old(specs[..])[j]
        {
          if specs[k].Some? && k < |ids| { specs[k] := Some(specs[k].value.(id := Some(ids[k]))); }
        }
        assert specs[..] == Ids(old(specs[..]), ids);
    }

    method FinishMutation(i: nat, mutation: AccountMutation, ghost m: nat)
      requires Valid() && i < |bulk.builders| && nodes[i].Some? && specs[i].Some?
      requires m < |pool| && mutation == pool[m]
      modifies this`trace, nodes, mutation
      ensures Valid() && View() == Finish(i, m, old(View()))
    {
      if specs[i].value.id.Some? {
        nodes[i] := Some(nodes[i].value.(id := specs[i].value.id.value));
      }
      mutation.id, mutation.done := Some(nodes[i].value.id), true;
      trace := trace + [Marked(i)];
      assert Records() == Finish(i, m, old(View())).mutations;
    }

    /** Saves all accounts. */
    method SaveAll() returns (err: Option<Error>)
      requires Valid() && View() == Start(bulk)
      modifies this, own, nodes, specs, pool
      ensures Valid() && Out(err, View()) == Save(bulk)
    {
      hide Mutate;
      err := None;
      if |bulk.builders| > 0 { err := RunMutator(0, 0, own[0], slot[0]); }
    }
  }

  lemma {:induction false} CallsStop(b: Bulk, i: nat, h: nat, c: nat, d: nat, m: nat, s: State)
    requires Fits(b, s) && i < |b.builders| && h < |Hooks(b, i)| && m < |s.mutations|
    requires c <= d && (c < d ==> c > 0 && Stops(Hooks(b, i)[h], Calls(b, i, h, c, m, s).err))
    ensures Calls(b, i, h, d, m, s) == Calls(b, i, h, c, m, s)
    decreases d - c
  {
    hide Mutate;
    if c < d { CallsStop(b, i, h, c, d - 1, m, s); }
  }
}
