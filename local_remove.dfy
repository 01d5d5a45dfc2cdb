/** The command that removes modules from given slots of a fit, and puts
    them back on undo. */
module LocalRemove {
  import opened Wrappers

  /** A call of the command that puts a module back into a slot. */
  datatype ReplaceCall<Info> = ReplaceCall(fitID: int, position: int, newModInfo: Info, commit: bool)

  /** Every position names a slot. */
  predicate InRange(positions: seq<int>, slotCount: int)
  {
    forall i :: 0 <= i < |positions| ==> 0 <= positions[i] < slotCount
  }

  /** The positions a removal frees, in the order it frees them: a listed
      position whose slot holds a module when the removal reaches it. A
      repeated position finds its slot already empty. */
  function Freed<M>(slots: seq<Option<M>>, positions: seq<int>): seq<int>
    requires InRange(positions, |slots|)
  {
    if positions == [] then []
    else
      var earlier := positions[..|positions| - 1];
      var p := positions[|positions| - 1];
      Freed(slots, earlier) + (if slots[p].Some? && p !in earlier then [p] else [])
  }

  /** No element occurs twice. */
  predicate Distinct(s: seq<int>)
  {
    forall i, j :: 0 <= i < j < |s| ==> s[i] != s[j]
  }

  /** A position is freed exactly when it is listed and its slot held a
      module to begin with. */
  lemma {:induction false} FreedPositions<M>(slots: seq<Option<M>>, positions: seq<int>)
    requires InRange(positions, |slots|)
    ensures forall p :: p in Freed(slots, positions) <==> p in positions && slots[p].Some?
  {
    if positions != [] {
      var earlier := positions[..|positions| - 1];
      var last := positions[|positions| - 1];
      FreedPositions(slots, earlier);
      assert positions == earlier + [last];
      forall p ensures p in positions <==> p in earlier || p == last {
      }
    }
  }

  /** No position is freed twice. */
  lemma {:induction false} FreedDistinct<M>(slots: seq<Option<M>>, positions: seq<int>)
    requires InRange(positions, |slots|)
    ensures Distinct(Freed(slots, positions))
  {
    if positions != [] {
      var earlier := positions[..|positions| - 1];
      var last := positions[|positions| - 1];
      FreedDistinct(slots, earlier);
      FreedPositions(slots, earlier);
      var fe := Freed(slots, earlier);
      if slots[last].Some? && last !in earlier {
        var f := Freed(slots, positions);
        assert f == fe + [last];
        forall i, j | 0 <= i < j < |f|
          ensures f[i] != f[j]
        {
          if j == |fe| {
            assert fe[i] in fe;
          } else {
            assert f[i] == fe[i] && f[j] == fe[j];
          }
        }
      } else {
        assert Freed(slots, positions) == fe;
      }
    }
  }

  /** The infos a removal records, by position: for each freed position, the
      info of the module its slot held. */
  function FreedInfos<M, Info>(slots: seq<Option<M>>, positions: seq<int>, fromModule: M -> Info): map<int, Info>
    requires InRange(positions, |slots|)
  {
    if positions == [] then map[]
    else
      var earlier := positions[..|positions| - 1];
      var p := positions[|positions| - 1];
      var m := FreedInfos(slots, earlier, fromModule);
      if slots[p].Some? && p !in earlier then m[p := fromModule(slots[p].value)] else m
  }

  /** The recorded infos are exactly those of the modules in the listed
      slots, as they were before the removal. */
  lemma {:induction false} FreedInfosContents<M, Info>(slots: seq<Option<M>>, positions: seq<int>, fromModule: M -> Info)
    requires InRange(positions, |slots|)
    ensures var m := FreedInfos(slots, positions, fromModule);
      && (forall p :: p in m <==> p in positions && slots[p].Some?)
      && (forall p :: p in m ==> m[p] == fromModule(slots[p].value))
  {
    if positions != [] {
      var earlier := positions[..|positions| - 1];
      var last := positions[|positions| - 1];
      FreedInfosContents(slots, earlier, fromModule);
      assert positions == earlier + [last];
      forall p ensures p in positions <==> p in earlier || p == last {
      }
    }
  }

  /** The slots after a removal has freed the listed positions in turn. */
  function Cleared<M>(slots: seq<Option<M>>, positions: seq<int>): (r: seq<Option<M>>)
    requires InRange(positions, |slots|)
    ensures |r| == |slots|
  {
    if positions == [] then slots
    else
      var c := Cleared(slots, positions[..|positions| - 1]);
      var p := positions[|positions| - 1];
      if c[p].Some? then c[p := None] else c
  }

  /** After a removal every listed slot is empty and every other slot is as
      it was. */
  lemma {:induction false} ClearedContents<M>(slots: seq<Option<M>>, positions: seq<int>)
    requires InRange(positions, |slots|)
    ensures forall k :: 0 <= k < |slots| ==> Cleared(slots, positions)[k] == if k in positions then None else slots[k]
  {
    if positions != [] {
      var earlier := positions[..|positions| - 1];
      var last := positions[|positions| - 1];
      ClearedContents(slots, earlier);
      assert positions == earlier + [last];
      forall p ensures p in positions <==> p in earlier || p == last {
      }
    }
  }

  /** Reaching one more listed position: its slot still holds a module
      exactly when it held one to begin with and the position was not listed
      before, and the removal then empties it. */
  lemma ClearedStep<M>(slots: seq<Option<M>>, positions: seq<int>, i: nat)
    requires InRange(positions, |slots|)
    requires i < |positions|
    ensures var p := positions[i];
      var c := Cleared(slots, positions[..i]);
      && (c[p].Some? <==> slots[p].Some? && p !in positions[..i])
      && (c[p].Some? ==> c[p] == slots[p])
      && Cleared(slots, positions[..i + 1]) == (if c[p].Some? then c[p := None] else c)
  {
    assert positions[..i + 1][..i] == positions[..i];
    ClearedContents(slots, positions[..i]);
  }

  /** Reaching one more listed position frees it when its slot held a module
      to begin with and it was not listed before. */
  lemma FreedStep<M>(slots: seq<Option<M>>, positions: seq<int>, i: nat)
    requires InRange(positions, |slots|)
    requires i < |positions|
    ensures var p := positions[i];
      Freed(slots, positions[..i + 1])
      == Freed(slots, positions[..i]) + (if slots[p].Some? && p !in positions[..i] then [p] else [])
  {
    assert positions[..i + 1][..i] == positions[..i];
  }

  /** Reaching one more listed position records the info of its module when
      it is freed. */
  lemma FreedInfosStep<M, Info>(slots: seq<Option<M>>, positions: seq<int>, i: nat, fromModule: M -> Info)
    requires InRange(positions, |slots|)
    requires i < |positions|
    ensures var p := positions[i];
      var m := FreedInfos(slots, positions[..i], fromModule);
      FreedInfos(slots, positions[..i + 1], fromModule)
      == if slots[p].Some? && p !in positions[..i] then m[p := fromModule(slots[p].value)] else m
  {
    assert positions[..i + 1][..i] == positions[..i];
  }

  /** The key order of an insertion-ordered dictionary after assigning to
      `keys` in turn: a new key goes last, an existing key keeps its place. */
  function AddKeys(order: seq<int>, keys: seq<int>): seq<int>
  {
    if keys == [] then order
    else
      var o := AddKeys(order, keys[..|keys| - 1]);
      var k := keys[|keys| - 1];
      if k in o then o else o + [k]
  }

  lemma UnionUpdate<K, V>(a: map<K, V>, b: map<K, V>, k: K, v: V)
    ensures a + b[k := v] == (a + b)[k := v]
  {
  }

  lemma AddKeysAppend(order: seq<int>, keys: seq<int>, k: int)
    ensures AddKeys(order, keys + [k]) == var o := AddKeys(order, keys); if k in o then o else o + [k]
  {
    assert (keys + [k])[..|keys|] == keys;
  }

  /** One iteration of the removal loop, on the slots, the records and their
      key order as they stand after the first `i` listed positions. */
  lemma RemovalStep<M, Info>(slots: seq<Option<M>>, positions: seq<int>, i: nat, fromModule: M -> Info,
                             saved: map<int, Info>, order: seq<int>)
    requires InRange(positions, |slots|)
    requires i < |positions|
    ensures var p := positions[i];
      var c := Cleared(slots, positions[..i]);
      var records := saved + FreedInfos(slots, positions[..i], fromModule);
      var keys := AddKeys(order, Freed(slots, positions[..i]));
      if c[p].Some? then
        && Cleared(slots, positions[..i + 1]) == c[p := None]
        && saved + FreedInfos(slots, positions[..i + 1], fromModule) == records[p := fromModule(c[p].value)]
        && AddKeys(order, Freed(slots, positions[..i + 1])) == (if p in keys then keys else keys + [p])
      else
        && Cleared(slots, positions[..i + 1]) == c
        && saved + FreedInfos(slots, positions[..i + 1], fromModule) == records
        && AddKeys(order, Freed(slots, positions[..i + 1])) == keys
  {
    var p := positions[i];
    ClearedStep(slots, positions, i);
    FreedStep(slots, positions, i);
    FreedInfosStep(slots, positions, i, fromModule);
    var f := Freed(slots, positions[..i]);
    var c := Cleared(slots, positions[..i]);
    if c[p].Some? {
      AddKeysAppend(order, f, p);
      UnionUpdate(saved, FreedInfos(slots, positions[..i], fromModule), p, fromModule(c[p].value));
    } else {
      assert f + [] == f;
    }
  }

  /** The replace calls an undo issues, one per saved slot in the order the
      slots were saved, none of them committing. */
  function ReplaceCalls<Info>(fitID: int, order: seq<int>, infos: map<int, Info>): seq<ReplaceCall<Info>>
    requires forall i :: 0 <= i < |order| ==> order[i] in infos
  {
    seq(|order|, i requires 0 <= i < |order| => ReplaceCall(fitID, order[i], infos[order[i]], false))
  }

  /** Undo puts back every record exactly once: the calls name exactly the
      recorded positions, no position twice, each with its recorded info and
      none of them committing. */
  lemma ReplaceCallsCoverRecords<Info>(fitID: int, order: seq<int>, infos: map<int, Info>)
    requires Consistent(infos, order)
    ensures var calls := ReplaceCalls(fitID, order, infos);
      && (forall p :: p in infos <==> exists i :: 0 <= i < |calls| && calls[i].position == p)
      && (forall i, j :: 0 <= i < j < |calls| ==> calls[i].position != calls[j].position)
      && (forall i :: 0 <= i < |calls| ==>
            && calls[i].fitID == fitID && !calls[i].commit
            && calls[i].position in infos && calls[i].newModInfo == infos[calls[i].position])
  {
    var calls := ReplaceCalls(fitID, order, infos);
    forall p | p in infos
      ensures exists i :: 0 <= i < |calls| && calls[i].position == p
    {
      var i :| 0 <= i < |order| && order[i] == p;
      assert calls[i].position == p;
    }
  }

  /** Something is recorded after a removal exactly when something was
      recorded before or a listed slot held a module. */
  lemma RecordedIffOccupied<M, Info>(saved: map<int, Info>, slots: seq<Option<M>>, positions: seq<int>, fromModule: M -> Info)
    requires InRange(positions, |slots|)
    ensures saved + FreedInfos(slots, positions, fromModule) != map[]
            <==> saved != map[] || exists p :: p in positions && slots[p].Some?
  {
    var freed := FreedInfos(slots, positions, fromModule);
    var all := saved + freed;
    FreedInfosContents(slots, positions, fromModule);
    if !exists p :: p in positions && slots[p].Some? {
      forall p ensures p !in freed {
      }
      assert freed == map[];
      assert all == saved;
    } else {
      var p :| p in positions && slots[p].Some?;
      assert p in all;
    }
  }

  /** An insertion-ordered dictionary as a map and its key order: every key
      listed once, and nothing else listed. */
  ghost predicate Consistent<V>(entries: map<int, V>, order: seq<int>)
  {
    && Distinct(order)
    && (forall p :: p in entries <==> p in order)
    && (forall i :: 0 <= i < |order| ==> order[i] in entries)
  }

  /** Assigning to a key keeps the dictionary consistent: a new key is
      listed last, an existing key keeps its place. */
  lemma ConsistentAssign<V>(entries: map<int, V>, order: seq<int>, p: int, v: V)
    requires Consistent(entries, order)
    ensures Consistent(entries[p := v], if p in order then order else order + [p])
  {
    if p !in order {
      var o := order + [p];
      forall i, j | 0 <= i < j < |o|
        ensures o[i] != o[j]
      {
        if j == |order| {
          assert o[i] in order;
        }
      }
    }
  }

  class CalcRemoveLocalModuleCommand<M, Info> {
    const fitID: int
    const positions: seq<int>
    const commit: bool
    var savedModInfos: map<int, Info>
    /** The keys of `savedModInfos` in insertion order. */
    var savedOrder: seq<int>
    /** Number of database commits issued. */
    ghost var commits: nat
    /** Log of the replace calls issued. */
    ghost var replaceCalls: seq<ReplaceCall<Info>>

    ghost predicate Valid()
      reads this
    {
      Consistent(savedModInfos, savedOrder)
    }

    constructor (fitID: int, positions: seq<int>, commit: bool := true)
      ensures Valid()
      ensures this.fitID == fitID && this.positions == positions && this.commit == commit
      ensures savedModInfos == map[] && savedOrder == []
      ensures commits == 0 && replaceCalls == []
    {
      this.fitID := fitID;
      this.positions := positions;
      this.commit := commit;
      savedModInfos := map[];
      savedOrder := [];
      commits := 0;
      replaceCalls := [];
    }

    /** Frees the listed slots of the fit, recording what each held.
        Reports whether any module has been recorded. */
    method Do(slots: array<Option<M>>, fromModule: M -> Info) returns (done: bool)
      requires Valid()
      requires InRange(positions, slots.Length)
      modifies this, slots
      ensures Valid()
      // every listed slot ends empty, every other slot is untouched
      ensures forall k :: 0 <= k < slots.Length ==> slots[k] == if k in positions then None else old(slots[k])
      // a record per freed slot, of the module it held
      ensures savedModInfos == old(savedModInfos) + FreedInfos(old(slots[..]), positions, fromModule)
      ensures savedOrder == AddKeys(old(savedOrder), Freed(old(slots[..]), positions))
      ensures done <==> old(savedModInfos) != map[] || exists p :: p in positions && old(slots[p]).Some?
      ensures commits == old(commits) + (if commit then 1 else 0)
      ensures replaceCalls == old(replaceCalls)
    {
      FreeListed(slots, fromModule);
      ClearedContents(old(slots[..]), positions);
      if commit {
        commits := commits + 1;
      }
      done := |savedModInfos| > 0;
      assert done <==> savedModInfos != map[];
      RecordedIffOccupied(old(savedModInfos), old(slots[..]), positions, fromModule);
    }

    /** The loop of Do: frees every listed slot that holds a module when it is
        reached, and records the module's info under the slot's position. */
    method FreeListed(slots: array<Option<M>>, fromModule: M -> Info)
      requires Valid()
      requires InRange(positions, slots.Length)
      modifies this`savedModInfos, this`savedOrder, slots
      ensures Valid()
      ensures slots[..] == Cleared(old(slots[..]), positions)
      ensures savedModInfos == old(savedModInfos) + FreedInfos(old(slots[..]), positions, fromModule)
      ensures savedOrder == AddKeys(old(savedOrder), Freed(old(slots[..]), positions))
    {
      ghost var slots0, saved0, order0 := slots[..], savedModInfos, savedOrder;
      for i := 0 to |positions|
        invariant Valid()
        invariant slots[..] == Cleared(slots0, positions[..i])
        invariant savedModInfos == saved0 + FreedInfos(slots0, positions[..i], fromModule)
        invariant savedOrder == AddKeys(order0, Freed(slots0, positions[..i]))
      {
        var position := positions[i];
        RemovalStep(slots0, positions, i, fromModule, saved0, order0);
        var mod := slots[position];
        if mod.Some? {
          var info := fromModule(mod.value);
          ConsistentAssign(savedModInfos, savedOrder, position, info);
          savedModInfos := savedModInfos[position := info];
          if position !in savedOrder {
            savedOrder := savedOrder + [position];
          }
          ghost var current := slots[..];
          slots[position] := None;
          assert slots[..] == current[position := None];
        }
      }
      assert positions[..|positions|] == positions;
    }

    /** Puts every saved module back, without committing each one. Reports
        whether any replace succeeded; `replace` is the outcome of a replace
        call. */
    method Undo(replace: ReplaceCall<Info> -> bool) returns (done: bool)
      requires Valid()
      modifies this
      ensures Valid() && savedModInfos == old(savedModInfos) && savedOrder == old(savedOrder)
      ensures replaceCalls == old(replaceCalls) + ReplaceCalls(fitID, savedOrder, savedModInfos)
      ensures done <==> exists p :: p in savedModInfos && replace(ReplaceCall(fitID, p, savedModInfos[p], false))
      ensures savedModInfos == map[] ==> !done
      ensures commits == old(commits) + (if commit then 1 else 0)
    {
      var results: seq<bool> := [];
      for i := 0 to |savedOrder|
        invariant Valid() && savedModInfos == old(savedModInfos) && savedOrder == old(savedOrder)
        invariant |results| == i
        invariant forall k :: 0 <= k < i ==> results[k] == replace(ReplaceCall(fitID, savedOrder[k], savedModInfos[savedOrder[k]], false))
        invariant replaceCalls == old(replaceCalls) + ReplaceCalls(fitID, savedOrder[..i], savedModInfos)
        invariant commits == old(commits)
      {
        var position := savedOrder[i];
        var call := ReplaceCall(fitID, position, savedModInfos[position], false);
        replaceCalls := replaceCalls + [call];
        results := results + [replace(call)];
      }
      assert savedOrder[..|savedOrder|] == savedOrder;
      if commit {
        commits := commits + 1;
      }
      done := true in results;
      if exists p :: p in savedModInfos && replace(ReplaceCall(fitID, p, savedModInfos[p], false)) {
        var p :| p in savedModInfos && replace(ReplaceCall(fitID, p, savedModInfos[p], false));
        var k :| 0 <= k < |savedOrder| && savedOrder[k] == p;
        assert results[k];
      }
    }
  }
}
