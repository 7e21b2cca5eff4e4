/** What merging effects into a transition table means. For one connection
    (from, to) with effect list `effects`, the k-th transition of `from` that
    leads to `to` (counting from 0, in list order) gets effect effects[k].
    `Merged` gives the table after a set of connections has been merged, in
    closed form, so that it does not depend on the order in which they were
    processed. */
module FsmMerge {
  import opened Types
  import opened Errors

  /** Effect lists keyed by connection, the argument of `merge_effects`. */
  type EffectsMap<S(==), Eff> = map<StatesConnection<S>, seq<Eff>>

  /** How many transitions of `ts` lead to `to`. */
  function CountTo<S(==), Eff>(ts: seq<Transition<S, Eff>>, to: S): (n: nat)
    ensures n <= |ts|
  {
    if ts == [] then 0
    else CountTo(ts[..|ts| - 1], to) + (if ts[|ts| - 1].to == to then 1 else 0)
  }

  /** `ts` once every transition to `to` has taken the next unused effect of
      `effects`, front to back. */
  function Assign<S(==), Eff>(ts: seq<Transition<S, Eff>>, to: S, effects: seq<Eff>): (r: seq<Transition<S, Eff>>)
    requires CountTo(ts, to) <= |effects|
    ensures |r| == |ts|
  {
    if ts == [] then []
    else
      var n := |ts| - 1;
      Assign(ts[..n], to, effects)
        + [if ts[n].to == to then ts[n].(effect := Some(effects[CountTo(ts[..n], to)])) else ts[n]]
  }

  /** The error `merge_effects` reports for connection `conn`, if any: a
      missing destination first, then a missing source, then the absence of
      any transition between them. */
  function EntryError<S(==), Eff>(table: Table<S, Eff>, conn: StatesConnection<S>): Option<FSMError<S>>
  {
    if conn.to !in table then Some(StateDoesNotExist(conn.to))
    else if conn.from !in table then Some(StateDoesNotExist(conn.from))
    else if CountTo(table[conn.from], conn.to) == 0 then Some(TransDoesNotExist(conn))
    else None
  }

  /** Every effect list whose connection could be processed is long enough
      for the transitions it is spread over (the source indexes it
      unchecked). */
  ghost predicate EffectsFit<S, Eff>(table: Table<S, Eff>, effectsMap: EffectsMap<S, Eff>) {
    forall c :: c in effectsMap && c.from in table && c.to in table ==> CountTo(table[c.from], c.to) <= |effectsMap[c]|
  }

  /** `applied` is a set of connections of `effectsMap` between registered
      states whose effect lists fit. */
  ghost predicate Mergeable<S, Eff>(table: Table<S, Eff>, effectsMap: EffectsMap<S, Eff>, applied: set<StatesConnection<S>>) {
    && EffectsFit(table, effectsMap)
    && forall c :: c in applied ==> c in effectsMap && c.from in table && c.to in table
  }

  /** Transition `i` of state `st` once the connections in `applied` have
      been merged. */
  ghost function PatchAt<S, Eff>(table: Table<S, Eff>, effectsMap: EffectsMap<S, Eff>, applied: set<StatesConnection<S>>, st: S, i: nat)
    : Transition<S, Eff>
    requires Mergeable(table, effectsMap, applied)
    requires st in table && i < |table[st]|
  {
    var ts := table[st];
    var c := StatesConnection(st, ts[i].to);
    if c in applied then
      CountToPrefix(ts, i, c.to);
      ts[i].(effect := Some(effectsMap[c][CountTo(ts[..i], c.to)]))
    else ts[i]
  }

  /** The table once the connections in `applied` have been merged. */
  ghost function Merged<S, Eff>(table: Table<S, Eff>, effectsMap: EffectsMap<S, Eff>, applied: set<StatesConnection<S>>)
    : Table<S, Eff>
    requires Mergeable(table, effectsMap, applied)
  {
    map st | st in table :: seq(|table[st]|, i requires 0 <= i < |table[st]| => PatchAt(table, effectsMap, applied, st, i))
  }

  /** Same targets and conditions, state by state and position by position:
      only effects may differ. */
  ghost predicate SameShape<S, Eff>(a: Table<S, Eff>, b: Table<S, Eff>) {
    && a.Keys == b.Keys
    && (forall st :: st in a ==> |a[st]| == |b[st]|)
    && (forall st, i :: st in a && 0 <= i < |a[st]| ==>
          a[st][i].to == b[st][i].to && a[st][i].condition == b[st][i].condition)
  }

  // ---------------------------------------------------------------------
  // Counting

  /** The count grows by one exactly at the transitions to `to`. */
  lemma {:induction false} CountToPrefix<S, Eff>(ts: seq<Transition<S, Eff>>, i: nat, to: S)
    requires i < |ts|
    ensures CountTo(ts[..i + 1], to) == CountTo(ts[..i], to) + (if ts[i].to == to then 1 else 0)
    ensures CountTo(ts[..i + 1], to) <= CountTo(ts, to)
    decreases |ts|
  {
    assert ts[..i + 1][..i] == ts[..i];
    if i + 1 < |ts| {
      var n := |ts| - 1;
      assert ts[..n][..i + 1] == ts[..i + 1] && ts[..n][..i] == ts[..i];
      CountToPrefix(ts[..n], i, to);
    } else {
      assert ts[..i + 1] == ts;
    }
  }

  /** The count only looks at targets. */
  lemma {:induction false} CountToTargets<S, Eff>(a: seq<Transition<S, Eff>>, b: seq<Transition<S, Eff>>, to: S)
    requires |a| == |b|
    requires forall i :: 0 <= i < |a| ==> a[i].to == b[i].to
    ensures CountTo(a, to) == CountTo(b, to)
    decreases |a|
  {
    if a != [] {
      CountToTargets(a[..|a| - 1], b[..|b| - 1], to);
    }
  }

  // ---------------------------------------------------------------------
  // One connection

  /** The transition at position `i` after assigning: the k-th transition to
      `to` gets effects[k], every other one stays as it was. */
  lemma {:induction false} AssignIndex<S, Eff>(ts: seq<Transition<S, Eff>>, to: S, effects: seq<Eff>, i: nat)
    requires CountTo(ts, to) <= |effects| && i < |ts|
    ensures ts[i].to == to ==>
      CountTo(ts[..i], to) < |effects| && Assign(ts, to, effects)[i] == ts[i].(effect := Some(effects[CountTo(ts[..i], to)]))
    ensures ts[i].to != to ==> Assign(ts, to, effects)[i] == ts[i]
    decreases |ts|
  {
    var n := |ts| - 1;
    CountToPrefix(ts, i, to);
    if i < n {
      CountToPrefix(ts, n, to);
      assert ts[..n + 1] == ts;
      assert ts[..n][i] == ts[i] && ts[..n][..i] == ts[..i];
      AssignIndex(ts[..n], to, effects, i);
    }
  }

  /** The k-th transition to `to` gets effects[k]; every other transition
      stays as it was, and positions, targets and conditions never change. */
  lemma AssignAt<S, Eff>(ts: seq<Transition<S, Eff>>, to: S, effects: seq<Eff>)
    requires CountTo(ts, to) <= |effects|
    ensures |Assign(ts, to, effects)| == |ts|
    ensures forall i :: 0 <= i < |ts| && ts[i].to == to ==>
      CountTo(ts[..i], to) < |effects| && Assign(ts, to, effects)[i] == ts[i].(effect := Some(effects[CountTo(ts[..i], to)]))
    ensures forall i :: 0 <= i < |ts| && ts[i].to != to ==> Assign(ts, to, effects)[i] == ts[i]
  {
    forall i | 0 <= i < |ts|
      ensures ts[i].to == to ==>
        CountTo(ts[..i], to) < |effects| && Assign(ts, to, effects)[i] == ts[i].(effect := Some(effects[CountTo(ts[..i], to)]))
      ensures ts[i].to != to ==> Assign(ts, to, effects)[i] == ts[i]
    {
      AssignIndex(ts, to, effects, i);
    }
  }

  /** Extending the processed prefix by one transition (the inner loop of
      merge_effects). */
  lemma AssignExtend<S, Eff>(ts: seq<Transition<S, Eff>>, i: nat, to: S, effects: seq<Eff>)
    requires i < |ts| && CountTo(ts, to) <= |effects|
    ensures CountTo(ts[..i], to) <= CountTo(ts[..i + 1], to) <= |effects|
    ensures ts[i].to == to ==> CountTo(ts[..i], to) < |effects|
    ensures Assign(ts[..i + 1], to, effects) ==
      Assign(ts[..i], to, effects) + [if ts[i].to == to then ts[i].(effect := Some(effects[CountTo(ts[..i], to)])) else ts[i]]
  {
    CountToPrefix(ts, i, to);
    assert ts[..i + 1][..i] == ts[..i];
  }

  /** Replacing the first element after a prefix. */
  lemma Splice<T>(prefix: seq<T>, rest: seq<T>, t: T)
    requires rest != []
    ensures (prefix + rest)[|prefix|] == rest[0]
    ensures (prefix + rest)[|prefix| := t] == (prefix + [t]) + rest[1..]
    ensures prefix + rest == (prefix + [rest[0]]) + rest[1..]
  {
    assert rest == [rest[0]] + rest[1..];
  }

  /** One step of the inner loop on the list being rewritten: the
      processed prefix followed by the untouched rest. */
  lemma AssignStep<S, Eff>(ts: seq<Transition<S, Eff>>, i: nat, to: S, effects: seq<Eff>)
    requires i < |ts| && CountTo(ts, to) <= |effects|
    ensures CountTo(ts[..i], to) <= CountTo(ts[..i + 1], to) <= |effects|
    ensures CountTo(ts[..i + 1], to) == CountTo(ts[..i], to) + (if ts[i].to == to then 1 else 0)
    ensures |Assign(ts[..i], to, effects)| == i
    ensures (Assign(ts[..i], to, effects) + ts[i..])[i] == ts[i]
    ensures ts[i].to == to ==>
      CountTo(ts[..i], to) < |effects| &&
      (Assign(ts[..i], to, effects) + ts[i..])[i := ts[i].(effect := Some(effects[CountTo(ts[..i], to)]))]
        == Assign(ts[..i + 1], to, effects) + ts[i + 1..]
    ensures ts[i].to != to ==>
      Assign(ts[..i], to, effects) + ts[i..] == Assign(ts[..i + 1], to, effects) + ts[i + 1..]
  {
    AssignExtend(ts, i, to, effects);
    CountToPrefix(ts, i, to);
    var prefix := Assign(ts[..i], to, effects);
    assert ts[i..][0] == ts[i] && ts[i..][1..] == ts[i + 1..];
    if ts[i].to == to {
      Splice(prefix, ts[i..], ts[i].(effect := Some(effects[CountTo(ts[..i], to)])));
    } else {
      Splice(prefix, ts[i..], ts[i]);
    }
  }

  /** Without a transition to `to`, nothing changes. */
  lemma AssignNothing<S, Eff>(ts: seq<Transition<S, Eff>>, to: S, effects: seq<Eff>)
    requires CountTo(ts, to) == 0
    ensures Assign(ts, to, effects) == ts
  {
    AssignAt(ts, to, effects);
    forall i | 0 <= i < |ts| ensures ts[i].to != to {
      CountToPrefix(ts, i, to);
    }
  }

  // ---------------------------------------------------------------------
  // Several connections

  /** Merging keeps the keys, the positions, the targets and the conditions. */
  lemma MergedShape<S, Eff>(table: Table<S, Eff>, effectsMap: EffectsMap<S, Eff>, applied: set<StatesConnection<S>>)
    requires Mergeable(table, effectsMap, applied)
    ensures SameShape(table, Merged(table, effectsMap, applied))
  {
  }

  /** Tables of the same shape agree on which merge entries fail and on which
      effect lists fit. */
  lemma SameShapeEntries<S, Eff>(a: Table<S, Eff>, b: Table<S, Eff>, effectsMap: EffectsMap<S, Eff>)
    requires SameShape(a, b)
    ensures forall c: StatesConnection<S> :: EntryError(a, c) == EntryError(b, c)
    ensures forall c: StatesConnection<S> :: c.from in a ==> CountTo(a[c.from], c.to) == CountTo(b[c.from], c.to)
    ensures EffectsFit(a, effectsMap) <==> EffectsFit(b, effectsMap)
  {
    forall st, to | st in a ensures CountTo(a[st], to) == CountTo(b[st], to) {
      CountToTargets(a[st], b[st], to);
    }
  }

  /** Merging no connection leaves the table as it is. */
  lemma MergedNothing<S, Eff>(table: Table<S, Eff>, effectsMap: EffectsMap<S, Eff>)
    requires EffectsFit(table, effectsMap)
    ensures Merged(table, effectsMap, {}) == table
  {
    var m := Merged(table, effectsMap, {});
    forall st | st in table ensures m[st] == table[st] { }
  }

  /** Processing one more connection `conn`: assigning its effects in the
      source state's list gives the merge of one connection more. Nothing
      outside `conn.from`'s list changes. */
  lemma MergedStep<S, Eff>(table: Table<S, Eff>, effectsMap: EffectsMap<S, Eff>, applied: set<StatesConnection<S>>, conn: StatesConnection<S>)
    requires Mergeable(table, effectsMap, applied)
    requires conn in effectsMap && conn !in applied && conn.from in table && conn.to in table
    ensures Mergeable(table, effectsMap, applied + {conn})
    ensures var m := Merged(table, effectsMap, applied);
      CountTo(m[conn.from], conn.to) <= |effectsMap[conn]| &&
      m[conn.from := Assign(m[conn.from], conn.to, effectsMap[conn])] == Merged(table, effectsMap, applied + {conn})
  {
    var m := Merged(table, effectsMap, applied);
    var m' := Merged(table, effectsMap, applied + {conn});
    var ts := table[conn.from];
    var effects := effectsMap[conn];
    MergedShape(table, effectsMap, applied);
    SameShapeEntries(table, m, effectsMap);
    AssignAt(m[conn.from], conn.to, effects);
    var a := Assign(m[conn.from], conn.to, effects);
    forall i | 0 <= i < |ts| ensures a[i] == m'[conn.from][i] {
      assert m[conn.from][..i] == seq(i, j requires 0 <= j < i => m[conn.from][j]);
      CountToTargets(m[conn.from][..i], ts[..i], conn.to);
    }
    assert a == m'[conn.from];
    forall st | st in table && st != conn.from ensures m[st] == m'[st] { }
  }

  // ---------------------------------------------------------------------
  // Processing the entries in a given order

  /** Assigning one connection's effects keeps the table's shape. */
  lemma AssignShape<S, Eff>(table: Table<S, Eff>, conn: StatesConnection<S>, effects: seq<Eff>)
    requires conn.from in table && CountTo(table[conn.from], conn.to) <= |effects|
    ensures SameShape(table, table[conn.from := Assign(table[conn.from], conn.to, effects)])
  {
    var ts := table[conn.from];
    var a := Assign(ts, conn.to, effects);
    var next := table[conn.from := a];
    AssignAt(ts, conn.to, effects);
    assert forall i :: 0 <= i < |ts| ==> a[i].to == ts[i].to && a[i].condition == ts[i].condition;
    assert next.Keys == table.Keys;
    forall st, i | st in table && 0 <= i < |table[st]|
      ensures table[st][i].to == next[st][i].to && table[st][i].condition == next[st][i].condition
    {
      if st == conn.from {
        assert next[st] == a;
      } else {
        assert next[st] == table[st];
      }
    }
  }

  /** One entry of merge_effects: its error, or the table with the
      connection's effects assigned. */
  function MergeOne<S(==), Eff>(table: Table<S, Eff>, effectsMap: EffectsMap<S, Eff>, conn: StatesConnection<S>)
    : (r: (Result<(), FSMError<S>>, Table<S, Eff>))
    requires EffectsFit(table, effectsMap) && conn in effectsMap
    ensures SameShape(table, r.1) && EffectsFit(r.1, effectsMap)
  {
    match EntryError(table, conn)
    case Some(e) => (Err(e), table)
    case None =>
      var next := table[conn.from := Assign(table[conn.from], conn.to, effectsMap[conn])];
      AssignShape(table, conn, effectsMap[conn]);
      SameShapeEntries(table, next, effectsMap);
      (Ok(()), next)
  }

  /** merge_effects processing the entries in the order `order`: it stops at
      the first failing entry and keeps what earlier entries did. */
  function MergeInOrder<S(==), Eff>(table: Table<S, Eff>, effectsMap: EffectsMap<S, Eff>, order: seq<StatesConnection<S>>)
    : (Result<(), FSMError<S>>, Table<S, Eff>)
    requires EffectsFit(table, effectsMap)
    requires forall c :: c in order ==> c in effectsMap
    decreases |order|
  {
    if order == [] then (Ok(()), table)
    else
      var step := MergeOne(table, effectsMap, order[0]);
      if step.0.Err? then step else MergeInOrder(step.1, effectsMap, order[1..])
  }

  /** No connection is listed twice. */
  ghost predicate Distinct<T>(order: seq<T>) {
    forall i, j :: 0 <= i < j < |order| ==> order[i] != order[j]
  }

  /** Processing the entries keeps the table's shape. */
  lemma {:induction false} MergeInOrderShape<S, Eff>(table: Table<S, Eff>, effectsMap: EffectsMap<S, Eff>, order: seq<StatesConnection<S>>)
    requires EffectsFit(table, effectsMap)
    requires forall c :: c in order ==> c in effectsMap
    ensures SameShape(table, MergeInOrder(table, effectsMap, order).1)
    ensures EffectsFit(MergeInOrder(table, effectsMap, order).1, effectsMap)
    decreases |order|
  {
    if order != [] {
      var step := MergeOne(table, effectsMap, order[0]);
      if step.0.Ok? {
        MergeInOrderShape(step.1, effectsMap, order[1..]);
      }
    }
  }

  /** One more entry after a successful prefix. */
  lemma {:induction false} MergeInOrderSnoc<S, Eff>(table: Table<S, Eff>, effectsMap: EffectsMap<S, Eff>, order: seq<StatesConnection<S>>, conn: StatesConnection<S>)
    requires EffectsFit(table, effectsMap)
    requires forall c :: c in order ==> c in effectsMap
    requires conn in effectsMap
    requires MergeInOrder(table, effectsMap, order).0.Ok?
    ensures EffectsFit(MergeInOrder(table, effectsMap, order).1, effectsMap)
    ensures MergeInOrder(table, effectsMap, order + [conn]) == MergeOne(MergeInOrder(table, effectsMap, order).1, effectsMap, conn)
    decreases |order|
  {
    MergeInOrderShape(table, effectsMap, order);
    if order == [] {
      assert order + [conn] == [conn];
      assert [conn][1..] == [];
    } else {
      var step := MergeOne(table, effectsMap, order[0]);
      assert (order + [conn])[0] == order[0];
      assert (order + [conn])[1..] == order[1..] + [conn];
      MergeInOrderSnoc(step.1, effectsMap, order[1..], conn);
    }
  }

  /** Splitting a list of distinct connections into its head and tail. */
  lemma DistinctCons<T>(order: seq<T>)
    requires order != [] && Distinct(order)
    ensures Distinct(order[1..])
    ensures forall c :: c in order <==> c == order[0] || c in order[1..]
    ensures order[0] !in order[1..]
    ensures (set c | c in order) == {order[0]} + (set c | c in order[1..])
  {
    forall c | c in order ensures c == order[0] || c in order[1..] {
      var k :| 0 <= k < |order| && order[k] == c;
      if k > 0 { assert order[1..][k - 1] == c; }
    }
  }

  /** Effect lists still fit once some connections have been merged. */
  lemma MergedEntries<S, Eff>(table: Table<S, Eff>, effectsMap: EffectsMap<S, Eff>, applied: set<StatesConnection<S>>)
    requires Mergeable(table, effectsMap, applied)
    ensures EffectsFit(Merged(table, effectsMap, applied), effectsMap)
  {
    MergedShape(table, effectsMap, applied);
    SameShapeEntries(table, Merged(table, effectsMap, applied), effectsMap);
  }

  /** Merging does not change which entries fail. */
  lemma MergedEntry<S, Eff>(table: Table<S, Eff>, effectsMap: EffectsMap<S, Eff>, applied: set<StatesConnection<S>>, conn: StatesConnection<S>)
    requires Mergeable(table, effectsMap, applied)
    ensures EffectsFit(Merged(table, effectsMap, applied), effectsMap)
    ensures EntryError(Merged(table, effectsMap, applied), conn) == EntryError(table, conn)
  {
    MergedShape(table, effectsMap, applied);
    SameShapeEntries(table, Merged(table, effectsMap, applied), effectsMap);
  }

  /** Processing distinct entries one after another, on top of an earlier
      merge, gives the closed form: it succeeds exactly when none of the
      entries fails, and then the table is the merge of all of them. */
  lemma {:induction false} MergeInOrderFrom<S, Eff>(table: Table<S, Eff>, effectsMap: EffectsMap<S, Eff>, applied: set<StatesConnection<S>>, order: seq<StatesConnection<S>>)
    requires Mergeable(table, effectsMap, applied)
    requires Distinct(order)
    requires forall c :: c in order ==> c in effectsMap && c !in applied
    ensures EffectsFit(Merged(table, effectsMap, applied), effectsMap)
    ensures MergeInOrder(Merged(table, effectsMap, applied), effectsMap, order).0.Ok?
      <==> (forall c :: c in order ==> EntryError(table, c).None?)
    ensures (forall c :: c in order ==> EntryError(table, c).None?) ==>
      && Mergeable(table, effectsMap, applied + (set c | c in order))
      && MergeInOrder(Merged(table, effectsMap, applied), effectsMap, order).1 == Merged(table, effectsMap, applied + (set c | c in order))
    decreases |order|
  {
    var m := Merged(table, effectsMap, applied);
    if order == [] {
      MergedEntries(table, effectsMap, applied);
      assert applied + (set c | c in order) == applied;
    } else {
      var conn := order[0];
      var rest := order[1..];
      MergedEntry(table, effectsMap, applied, conn);
      DistinctCons(order);
      var step := MergeOne(m, effectsMap, conn);
      assert MergeInOrder(m, effectsMap, order) == if step.0.Err? then step else MergeInOrder(step.1, effectsMap, rest);
      if EntryError(table, conn).None? {
        MergeInOrderFromOk(table, effectsMap, applied, order);
      } else {
        assert step.0.Err?;
      }
    }
  }

  /** The case of MergeInOrderFrom whose first entry succeeds. */
  lemma {:induction false} MergeInOrderFromOk<S, Eff>(table: Table<S, Eff>, effectsMap: EffectsMap<S, Eff>, applied: set<StatesConnection<S>>, order: seq<StatesConnection<S>>)
    requires Mergeable(table, effectsMap, applied)
    requires Distinct(order) && order != [] && EntryError(table, order[0]).None?
    requires forall c :: c in order ==> c in effectsMap && c !in applied
    ensures EffectsFit(Merged(table, effectsMap, applied), effectsMap)
    ensures MergeInOrder(Merged(table, effectsMap, applied), effectsMap, order).0.Ok?
      <==> (forall c :: c in order ==> EntryError(table, c).None?)
    ensures (forall c :: c in order ==> EntryError(table, c).None?) ==>
      && Mergeable(table, effectsMap, applied + (set c | c in order))
      && MergeInOrder(Merged(table, effectsMap, applied), effectsMap, order).1 == Merged(table, effectsMap, applied + (set c | c in order))
    decreases |order|, 0
  {
    var conn := order[0];
    var rest := order[1..];
    var m := Merged(table, effectsMap, applied);
    MergedEntry(table, effectsMap, applied, conn);
    DistinctCons(order);
    MergedStep(table, effectsMap, applied, conn);
    var m' := Merged(table, effectsMap, applied + {conn});
    assert MergeOne(m, effectsMap, conn) == (Ok(()), m');
    assert MergeInOrder(m, effectsMap, order) == MergeInOrder(m', effectsMap, rest);
    assert forall c :: c in rest ==> c in effectsMap && c !in applied + {conn} by {
      forall c | c in rest ensures c in order && c != conn { }
    }
    MergeInOrderFrom(table, effectsMap, applied + {conn}, rest);
    UnionAssoc(applied, {conn}, set c | c in rest);
  }

  lemma UnionAssoc<T>(a: set<T>, b: set<T>, c: set<T>)
    ensures a + b + c == a + (b + c)
  {
  }

  /** One more entry `conn` after the distinct entries `order` have all
      succeeded: the outcome of processing `order + [conn]` is that of
      processing `conn` on their merge, and `conn` fails there exactly as it
      does on the original table. */
  lemma MergeNext<S, Eff>(table: Table<S, Eff>, effectsMap: EffectsMap<S, Eff>, applied: set<StatesConnection<S>>, order: seq<StatesConnection<S>>, conn: StatesConnection<S>)
    requires Mergeable(table, effectsMap, applied)
    requires Distinct(order) && forall c :: c in order <==> c in applied
    requires MergeInOrder(table, effectsMap, order) == (Ok(()), Merged(table, effectsMap, applied))
    requires conn in effectsMap && conn !in applied
    ensures EffectsFit(Merged(table, effectsMap, applied), effectsMap)
    ensures SameShape(table, Merged(table, effectsMap, applied))
    ensures Distinct(order + [conn]) && forall c :: c in order + [conn] ==> c in effectsMap
    ensures MergeInOrder(table, effectsMap, order + [conn]) == MergeOne(Merged(table, effectsMap, applied), effectsMap, conn)
    ensures EntryError(Merged(table, effectsMap, applied), conn) == EntryError(table, conn)
    ensures EntryError(table, conn).None? ==>
      && Mergeable(table, effectsMap, applied + {conn})
      && MergeOne(Merged(table, effectsMap, applied), effectsMap, conn) == (Ok(()), Merged(table, effectsMap, applied + {conn}))
  {
    MergedShape(table, effectsMap, applied);
    MergedEntry(table, effectsMap, applied, conn);
    MergeInOrderSnoc(table, effectsMap, order, conn);
    var order' := order + [conn];
    assert Distinct(order') by {
      forall i, j | 0 <= i < j < |order'| ensures order'[i] != order'[j] {
        if j == |order| {
          assert order'[i] == order[i] && order[i] in applied;
        } else {
          assert order'[i] == order[i] && order'[j] == order[j];
        }
      }
    }
    if EntryError(table, conn).None? {
      MergedStep(table, effectsMap, applied, conn);
    }
  }

  /** merge_effects processing the entries in any order of distinct
      connections, listing the set `keys`, succeeds exactly when no entry
      fails on the original table, and then yields the merge of all of
      them. */
  lemma MergeInOrderSpec<S, Eff>(table: Table<S, Eff>, effectsMap: EffectsMap<S, Eff>, order: seq<StatesConnection<S>>, keys: set<StatesConnection<S>>)
    requires EffectsFit(table, effectsMap)
    requires Distinct(order)
    requires forall c :: c in order <==> c in keys
    requires keys <= effectsMap.Keys
    ensures MergeInOrder(table, effectsMap, order).0.Ok? <==> (forall c :: c in keys ==> EntryError(table, c).None?)
    ensures MergeInOrder(table, effectsMap, order).0.Ok? ==>
      && Mergeable(table, effectsMap, keys)
      && MergeInOrder(table, effectsMap, order).1 == Merged(table, effectsMap, keys)
  {
    MergedNothing(table, effectsMap);
    MergeInOrderFrom(table, effectsMap, {}, order);
    assert {} + (set c | c in order) == keys;
  }

  /** The order in which a map's entries are visited does not matter: two
      orders listing the same distinct connections both succeed or both fail,
      and when they succeed they give the same table. */
  lemma MergeOrderIrrelevant<S, Eff>(table: Table<S, Eff>, effectsMap: EffectsMap<S, Eff>, order1: seq<StatesConnection<S>>, order2: seq<StatesConnection<S>>)
    requires EffectsFit(table, effectsMap)
    requires Distinct(order1) && Distinct(order2)
    requires forall c :: c in order1 ==> c in effectsMap
    requires forall c :: c in order1 <==> c in order2
    ensures MergeInOrder(table, effectsMap, order1).0.Ok? <==> MergeInOrder(table, effectsMap, order2).0.Ok?
    ensures MergeInOrder(table, effectsMap, order1).0.Ok? ==> MergeInOrder(table, effectsMap, order1) == MergeInOrder(table, effectsMap, order2)
  {
    var keys := set c | c in order1;
    MergeInOrderSpec(table, effectsMap, order1, keys);
    MergeInOrderSpec(table, effectsMap, order2, keys);
    var r1 := MergeInOrder(table, effectsMap, order1);
    var r2 := MergeInOrder(table, effectsMap, order2);
    if r1.0.Ok? {
      assert r1.1 == r2.1;
      assert r1.0.value == () && r2.0.value == ();
    }
  }

  // ---------------------------------------------------------------------
  // Tables with at most one transition per connection

  /** No state lists two transitions to the same target. */
  ghost predicate TargetsDistinct<S, Eff>(table: Table<S, Eff>) {
    forall st, i, j :: st in table && 0 <= i < j < |table[st]| ==> table[st][i].to != table[st][j].to
  }

  /** With distinct targets a target is counted once if it occurs, and not
      at all otherwise. */
  lemma {:induction false} CountToDistinct<S, Eff>(ts: seq<Transition<S, Eff>>, to: S)
    requires forall i, j :: 0 <= i < j < |ts| ==> ts[i].to != ts[j].to
    ensures CountTo(ts, to) == if exists i :: 0 <= i < |ts| && ts[i].to == to then 1 else 0
    decreases |ts|
  {
    if ts != [] {
      var n := |ts| - 1;
      var p := ts[..n];
      CountToDistinct(p, to);
      if exists i :: 0 <= i < |ts| && ts[i].to == to {
        var i :| 0 <= i < |ts| && ts[i].to == to;
        if i < n {
          assert p[i].to == to;
        } else {
          assert forall j :: 0 <= j < n ==> p[j].to != to;
        }
      } else {
        assert forall j :: 0 <= j < n ==> p[j].to != to;
      }
    }
  }

  /** With distinct targets every merged connection has exactly one
      transition, and it takes the first effect of the connection's list. */
  lemma MergedDistinct<S, Eff>(table: Table<S, Eff>, effectsMap: EffectsMap<S, Eff>, applied: set<StatesConnection<S>>, st: S, i: nat)
    requires TargetsDistinct(table)
    requires Mergeable(table, effectsMap, applied)
    requires st in table && i < |table[st]|
    ensures var c := StatesConnection(st, table[st][i].to);
      && (c in applied ==> |effectsMap[c]| > 0 && Merged(table, effectsMap, applied)[st][i] == table[st][i].(effect := Some(effectsMap[c][0])))
      && (c !in applied ==> Merged(table, effectsMap, applied)[st][i] == table[st][i])
  {
    var ts := table[st];
    var c := StatesConnection(st, ts[i].to);
    CountToDistinct(ts, c.to);
    CountToDistinct(ts[..i], c.to);
    assert forall j :: 0 <= j < i ==> ts[..i][j].to != c.to;
  }
}
