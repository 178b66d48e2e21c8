/** The key-state diff engine's pure parts: the current key list and
    modifier list of a decoded report, the "not in" filter behind the
    pressed and released lists, and translation through the key table. */
module KeyState {
  import opened ChatpadProtocol

  /** The scan codes held in a report: the nonzero slots, slot 0 first.
      A code held in both slots appears twice. */
  function KeysOf(r: Report): (keys: seq<int>)
    ensures |keys| <= 2
    ensures forall k :: k in keys <==> k != 0 && (k == r.key0 as int || k == r.key1 as int)
    ensures keys == [] <==> r.key0 == 0 && r.key1 == 0
    ensures r.key0 != 0 ==> keys[0] == r.key0 as int
    ensures r.key1 != 0 ==> keys[|keys| - 1] == r.key1 as int
    ensures |keys| == 2 <==> r.key0 != 0 && r.key1 != 0
  {
    (if r.key0 != 0 then [r.key0 as int] else []) + (if r.key1 != 0 then [r.key1 as int] else [])
  }

  /** The ids of the table entries whose mask is fully set in `m`, in table order. */
  function Selected(m: Byte, table: seq<(Byte, int)>): (ids: seq<int>)
    ensures |ids| <= |table|
    ensures forall id :: id in ids ==> exists e :: e in table && e.1 == id && e.0 & m == e.0
  {
    if table == [] then []
    else
      var e := table[|table| - 1];
      Selected(m, table[..|table| - 1]) + (if e.0 & m == e.0 then [e.1] else [])
  }

  /** Bit `k` of a byte. */
  predicate BitSet(m: Byte, k: nat)
    requires k < 8
  {
    (m >> k) & 1 == 1
  }

  /** The table walk: id 4 for mask bit 3 first, then ids 1, 2, 3 for mask
      bits 0, 1, 2. */
  lemma ModifiersOfUnfold(m: Byte)
    ensures Selected(m, ModDict) ==
      (if BitSet(m, 3) then [4] else []) + (if BitSet(m, 0) then [1] else []) +
      (if BitSet(m, 1) then [2] else []) + (if BitSet(m, 2) then [3] else [])
  {
    var t3, t2, t1 := ModDict[..3], ModDict[..2], ModDict[..1];
    assert t3[..2] == t2 && t2[..1] == t1 && t1[..0] == [];
    assert Selected(m, t1) == (if PeopleMask & m == PeopleMask then [4] else []);
    assert Selected(m, t2) == Selected(m, t1) + (if ShiftMask & m == ShiftMask then [1] else []);
    assert Selected(m, t3) == Selected(m, t2) + (if GreenSquareMask & m == GreenSquareMask then [2] else []);
    assert Selected(m, ModDict) == Selected(m, t3) + (if OrangeCircleMask & m == OrangeCircleMask then [3] else []);
    assert ShiftMask & m == ShiftMask <==> BitSet(m, 0);
    assert GreenSquareMask & m == GreenSquareMask <==> BitSet(m, 1);
    assert OrangeCircleMask & m == OrangeCircleMask <==> BitSet(m, 2);
    assert PeopleMask & m == PeopleMask <==> BitSet(m, 3);
  }

  /** Position of a modifier id in the table walk: 4 first, then 1, 2, 3. */
  function TableRank(id: int): int
  {
    if id == 4 then 0 else id
  }

  /** The ids appear in the order the modifier table is walked. */
  predicate InTableOrder(s: seq<int>)
  {
    forall i, j :: 0 <= i < j < |s| ==> TableRank(s[i]) < TableRank(s[j])
  }

  /** The modifier list held in a mask: id k + 1 for mask bit k, k < 4, in
      the order of the table walk, so id 4 comes first. */
  function ModifiersOf(m: Byte): (mods: seq<int>)
    ensures forall id :: id in mods <==> 1 <= id <= 4 && BitSet(m, id - 1)
    ensures InTableOrder(mods)
    ensures |mods| <= 4
  {
    ModifiersOfUnfold(m);
    Selected(m, ModDict)
  }

  /** Mask bits above bit 3 have no effect on the modifier list. */
  lemma ModifiersIgnoreHighBits(m: Byte)
    ensures ModifiersOf(m) == ModifiersOf(m & 0x0F)
  {
    ModifiersOfUnfold(m);
    ModifiersOfUnfold(m & 0x0F);
  }

  /** The modifier list determines the low four bits of the mask. */
  lemma ModifiersDetermineMask(m: Byte, n: Byte)
    requires ModifiersOf(m) == ModifiersOf(n)
    ensures m & 0x0F == n & 0x0F
  {
    ModifiersOfUnfold(m);
    ModifiersOfUnfold(n);
    assert BitSet(m, 0) == BitSet(n, 0) by { assert 1 in ModifiersOf(m) <==> 1 in ModifiersOf(n); }
    assert BitSet(m, 1) == BitSet(n, 1) by { assert 2 in ModifiersOf(m) <==> 2 in ModifiersOf(n); }
    assert BitSet(m, 2) == BitSet(n, 2) by { assert 3 in ModifiersOf(m) <==> 3 in ModifiersOf(n); }
    assert BitSet(m, 3) == BitSet(n, 3) by { assert 4 in ModifiersOf(m) <==> 4 in ModifiersOf(n); }
  }

  /** `[x for x in xs if x not in ys]`. */
  function Missing(xs: seq<int>, ys: seq<int>): (r: seq<int>)
    ensures |r| <= |xs|
    ensures forall x :: x in r <==> x in xs && x !in ys
  {
    if xs == [] then []
    else
      var x := xs[|xs| - 1];
      assert xs == xs[..|xs| - 1] + [x];
      Missing(xs[..|xs| - 1], ys) + (if x in ys then [] else [x])
  }

  /** The filter goes element by element: one element survives exactly
      when it is not in `ys`. */
  lemma MissingOne(x: int, ys: seq<int>)
    ensures Missing([x], ys) == if x in ys then [] else [x]
  {
    assert [x][..0] == [];
  }

  /** Each survivor occurs in the result as often as in `xs`. */
  lemma {:induction false} MissingCount(xs: seq<int>, ys: seq<int>, x: int)
    ensures multiset(Missing(xs, ys))[x] == if x in ys then 0 else multiset(xs)[x]
  {
    if xs != [] {
      var init, y := xs[..|xs| - 1], xs[|xs| - 1];
      var t := if y in ys then [] else [y];
      calc {
        multiset(Missing(xs, ys))[x];
      == { assert xs == init + [y]; MissingSnoc(init, y, ys); }
        multiset(Missing(init, ys) + t)[x];
      ==
        multiset(Missing(init, ys))[x] + multiset(t)[x];
      == { MissingCount(init, ys, x); }
        (if x in ys then 0 else multiset(init)[x]) + multiset(t)[x];
      }
      assert multiset(xs) == multiset(init) + multiset{y} by { assert xs == init + [y]; }
    }
  }

  /** The filter distributes over concatenation, so together with
      `MissingOne` it keeps the survivors in the order of `xs`, each as
      often as it occurs there. */
  lemma {:induction false} MissingAppend(a: seq<int>, b: seq<int>, ys: seq<int>)
    ensures Missing(a + b, ys) == Missing(a, ys) + Missing(b, ys)
  {
    if b == [] {
      assert a + b == a;
    } else {
      var init, y := b[..|b| - 1], b[|b| - 1];
      var left, t := a + init, if y in ys then [] else [y];
      calc {
        Missing(a + b, ys);
      == { assert a + b == left + [y]; }
        Missing(left + [y], ys);
      == { MissingSnoc(left, y, ys); }
        Missing(left, ys) + t;
      == { MissingAppend(a, init, ys); }
        (Missing(a, ys) + Missing(init, ys)) + t;
      ==
        Missing(a, ys) + (Missing(init, ys) + t);
      == { assert b == init + [y]; MissingSnoc(init, y, ys); }
        Missing(a, ys) + Missing(b, ys);
      }
    }
  }

  /** One filter step at the end of the list. */
  lemma MissingSnoc(xs: seq<int>, y: int, ys: seq<int>)
    ensures Missing(xs + [y], ys) == Missing(xs, ys) + (if y in ys then [] else [y])
  {
    var s := xs + [y];
    assert s[..|s| - 1] == xs;
  }

  /** Filtering keeps the order of `xs`: a modifier list in table order
      stays in table order. */
  lemma {:induction false} MissingInTableOrder(xs: seq<int>, ys: seq<int>)
    requires InTableOrder(xs)
    ensures InTableOrder(Missing(xs, ys))
  {
    if xs != [] {
      var init, x := xs[..|xs| - 1], xs[|xs| - 1];
      MissingInTableOrder(init, ys);
      var a := Missing(init, ys);
      if x in ys {
        assert Missing(xs, ys) == a + [];
        assert a + [] == a;
      } else {
        forall i | 0 <= i < |a| ensures TableRank(a[i]) < TableRank(x) {
          assert a[i] in a;
          var k :| 0 <= k < |init| && init[k] == a[i];
          assert xs[k] == a[i];
        }
        AppendInTableOrder(a, x);
        assert Missing(xs, ys) == a + [x];
      }
    }
  }

  lemma AppendInTableOrder(a: seq<int>, x: int)
    requires InTableOrder(a)
    requires forall i :: 0 <= i < |a| ==> TableRank(a[i]) < TableRank(x)
    ensures InTableOrder(a + [x])
  {
    var r := a + [x];
    forall i, j | 0 <= i < j < |r| ensures TableRank(r[i]) < TableRank(r[j]) {
      assert r[i] == a[i];
    }
  }

  /** Nothing is filtered out of `xs` when `ys` shares no element with it. */
  lemma {:induction false} MissingDisjoint(xs: seq<int>, ys: seq<int>)
    requires forall x :: x in xs ==> x !in ys
    ensures Missing(xs, ys) == xs
  {
    if xs != [] {
      MissingDisjoint(xs[..|xs| - 1], ys);
      assert xs == xs[..|xs| - 1] + [xs[|xs| - 1]];
    }
  }

  /** The pressed list: new keys in current order, then new modifiers. */
  function Pressed(prevKeys: seq<int>, prevMods: seq<int>, keys: seq<int>, mods: seq<int>): (r: seq<int>)
    ensures forall x :: x in r <==> (x in keys && x !in prevKeys) || (x in mods && x !in prevMods)
    ensures |r| <= |keys| + |mods|
    ensures AllScanCodes(keys) && AllModifierIds(mods) ==> KeysFirst(r)
  {
    KeysBeforeModifiers(Missing(keys, prevKeys), Missing(mods, prevMods));
    Missing(keys, prevKeys) + Missing(mods, prevMods)
  }

  /** The released list: dropped keys in previous order, then dropped modifiers. */
  function Released(prevKeys: seq<int>, prevMods: seq<int>, keys: seq<int>, mods: seq<int>): (r: seq<int>)
    ensures forall x :: x in r <==> (x in prevKeys && x !in keys) || (x in prevMods && x !in mods)
    ensures |r| <= |prevKeys| + |prevMods|
    ensures AllScanCodes(prevKeys) && AllModifierIds(prevMods) ==> KeysFirst(r)
  {
    KeysBeforeModifiers(Missing(prevKeys, keys), Missing(prevMods, mods));
    Missing(prevKeys, keys) + Missing(prevMods, mods)
  }

  /** Every code lies above the modifier ids 1 to 4. */
  predicate AllScanCodes(s: seq<int>)
  {
    forall k :: k in s ==> k > 4
  }

  /** Every code is at most 4, the largest modifier id. */
  predicate AllModifierIds(s: seq<int>)
  {
    forall id :: id in s ==> id <= 4
  }

  /** No scan code follows a modifier id. */
  predicate KeysFirst(r: seq<int>)
  {
    forall i, j :: 0 <= i < j < |r| && r[i] <= 4 ==> r[j] <= 4
  }

  /** Scan codes followed by modifier ids: no scan code comes after an id. */
  lemma KeysBeforeModifiers(a: seq<int>, b: seq<int>)
    ensures AllScanCodes(a) && AllModifierIds(b) ==> KeysFirst(a + b)
  {
    var r := a + b;
    if AllScanCodes(a) && AllModifierIds(b) {
      forall k | 0 <= k < |a| ensures r[k] > 4 {
        assert r[k] == a[k] && a[k] in a;
      }
      forall i, j | 0 <= i < j < |r| && r[i] <= 4 ensures r[j] <= 4 {
        assert r[j] == b[j - |a|] && b[j - |a|] in b;
      }
    }
  }

  /** From the empty state everything held is pressed, keys before
      modifiers, and nothing is released. */
  lemma PressFromEmpty(keys: seq<int>, mods: seq<int>)
    ensures Pressed([], [], keys, mods) == keys + mods
    ensures Released([], [], keys, mods) == []
  {
    MissingDisjoint(keys, []);
    MissingDisjoint(mods, []);
  }

  /** The modifier parts of both lists follow the table walk. */
  lemma ModifierEventsInTableOrder(prevMods: seq<int>, m: Byte)
    requires InTableOrder(prevMods)
    ensures InTableOrder(Missing(ModifiersOf(m), prevMods))
    ensures InTableOrder(Missing(prevMods, ModifiersOf(m)))
  {
    MissingInTableOrder(ModifiersOf(m), prevMods);
    MissingInTableOrder(prevMods, ModifiersOf(m));
  }

  /** The diff is complete: every key held now was either held before and
      not released, or is pressed; and every key held before is either still
      held or released. The same holds of the modifiers. */
  lemma DiffAccountsForChange(prev: seq<int>, cur: seq<int>)
    ensures forall x :: x in cur <==> (x in prev && x !in Missing(prev, cur)) || x in Missing(cur, prev)
    ensures forall x :: x in prev <==> (x in cur && x !in Missing(cur, prev)) || x in Missing(prev, cur)
    ensures Missing(cur, prev) == [] && Missing(prev, cur) == [] <==> forall x :: x in cur <==> x in prev
  {
    if forall x :: x in cur <==> x in prev {
      HasMember(Missing(cur, prev));
      HasMember(Missing(prev, cur));
    }
  }

  /** Replaying a dispatch: with scan codes distinct from the modifier ids,
      the current keys and modifiers are exactly the previous ones minus what
      was released plus what was pressed, and nothing is both. */
  lemma DiffReplays(prevKeys: seq<int>, prevMods: seq<int>, keys: seq<int>, mods: seq<int>)
    requires forall k :: k in prevKeys + keys ==> k > 4
    requires forall id :: id in prevMods + mods ==> 1 <= id <= 4
    ensures var p, q := Pressed(prevKeys, prevMods, keys, mods), Released(prevKeys, prevMods, keys, mods);
      (forall x :: x in keys + mods <==> (x in prevKeys + prevMods && x !in q) || x in p) &&
      (forall x :: x in p ==> x !in q)
  {
    var p1, p2 := Missing(keys, prevKeys), Missing(mods, prevMods);
    var q1, q2 := Missing(prevKeys, keys), Missing(prevMods, mods);
    DiffAccountsForChange(prevKeys, keys);
    DiffAccountsForChange(prevMods, mods);
    forall x ensures x in keys + mods <==> (x in prevKeys + prevMods && x !in q1 + q2) || x in p1 + p2 {
      if x in prevKeys || x in keys {
        assert x in prevKeys + keys;
        assert x !in prevMods + mods;
      }
    }
    forall x | x in p1 + p2 ensures x !in q1 + q2 {
      if x in keys || x in prevKeys {
        assert x in prevKeys + keys;
        assert x !in prevMods + mods;
      }
    }
  }

  /** A nonempty list has a member. */
  lemma HasMember(s: seq<int>)
    ensures s != [] ==> exists x :: x in s
  {
    if s != [] {
      var y := s[0];
      assert y in s;
    }
  }

  /** A dispatch has nothing to report exactly when the previous and current
      key lists hold the same codes and the modifier lists are equal. */
  lemma NothingToReport(prevKeys: seq<int>, prevMods: seq<int>, m: Byte, keys: seq<int>)
    requires InTableOrder(prevMods)
    ensures var mods := ModifiersOf(m);
      Pressed(prevKeys, prevMods, keys, mods) == [] && Released(prevKeys, prevMods, keys, mods) == []
      <==> (forall k :: k in keys <==> k in prevKeys) && mods == prevMods
  {
    var mods := ModifiersOf(m);
    DiffAccountsForChange(prevKeys, keys);
    DiffAccountsForChange(prevMods, mods);
    if forall x :: x in mods <==> x in prevMods {
      TableOrderSameElements(mods, prevMods);
    }
  }

  /** Two modifier lists in table order with the same elements are equal. */
  lemma {:induction false} TableOrderSameElements(a: seq<int>, b: seq<int>)
    requires InTableOrder(a) && InTableOrder(b)
    requires forall x :: x in a ==> 1 <= x <= 4
    requires forall x :: x in a <==> x in b
    ensures a == b
  {
    HasMember(a);
    HasMember(b);
    if a != [] && b != [] {
      SameHead(a, b);
      SameTail(a, b);
      TableOrderSameElements(a[1..], b[1..]);
      assert a == [a[0]] + a[1..] && b == [b[0]] + b[1..];
    }
  }

  /** Both lists start with the element of least rank. */
  lemma SameHead(a: seq<int>, b: seq<int>)
    requires a != [] && b != []
    requires InTableOrder(a) && InTableOrder(b)
    requires forall x :: x in a ==> 1 <= x <= 4
    requires forall x :: x in a <==> x in b
    ensures a[0] == b[0]
  {
    var x, y := a[0], b[0];
    assert x in a && y in b;
    var i :| 0 <= i < |b| && b[i] == x;
    var j :| 0 <= j < |a| && a[j] == y;
    assert TableRank(b[0]) <= TableRank(b[i]);
    assert TableRank(a[0]) <= TableRank(a[j]);
  }

  /** With equal heads, the tails hold the same elements. */
  lemma SameTail(a: seq<int>, b: seq<int>)
    requires a != [] && b != [] && a[0] == b[0]
    requires InTableOrder(a) && InTableOrder(b)
    requires forall x :: x in a <==> x in b
    ensures InTableOrder(a[1..]) && InTableOrder(b[1..])
    ensures forall z :: z in a[1..] ==> z in a
    ensures forall z :: z in a[1..] <==> z in b[1..]
  {
    forall z ensures z in a[1..] <==> z in b[1..] {
      if z in a[1..] {
        var k :| 0 <= k < |a[1..]| && a[1..][k] == z;
        assert a[k + 1] == z && TableRank(a[0]) < TableRank(a[k + 1]);
        assert z in b;
        var m :| 0 <= m < |b| && b[m] == z;
        assert m != 0;
        assert b[1..][m - 1] == z;
      }
      if z in b[1..] {
        var k :| 0 <= k < |b[1..]| && b[1..][k] == z;
        assert b[k + 1] == z && TableRank(b[0]) < TableRank(b[k + 1]);
        assert z in a;
        var m :| 0 <= m < |a| && a[m] == z;
        assert m != 0;
        assert a[1..][m - 1] == z;
      }
    }
  }

  /** `[key_dict[c] for c in codes]`: fails on the first code the table lacks. */
  function Translate(codes: seq<int>): (r: Result<seq<string>>)
    ensures r.Ok? <==> forall i :: 0 <= i < |codes| ==> KeyName(codes[i]).Some?
    ensures r.Ok? ==> |r.value| == |codes| &&
                      forall i :: 0 <= i < |codes| ==> KeyName(codes[i]) == Some(r.value[i])
    ensures r.KeyError? ==> exists i :: 0 <= i < |codes| && codes[i] == r.code && KeyName(r.code).None? &&
                                        forall j :: 0 <= j < i ==> KeyName(codes[j]).Some?
  {
    if codes == [] then Ok([])
    else
      match KeyName(codes[0])
      case None => KeyError(codes[0])
      case Some(name) =>
        match Translate(codes[1..])
        case KeyError(c) =>
          assert forall j :: 1 <= j < |codes| ==> codes[j] == codes[1..][j - 1];
          KeyError(c)
        case Ok(names) => Ok([name] + names)
  }

  /** Translating a single known code. */
  lemma TranslateOne(c: int)
    requires KeyName(c).Some?
    ensures Translate([c]) == Ok([KeyName(c).value])
  {
    var codes: seq<int> := [c];
    assert codes[1..] == [];
    var names: seq<string> := [KeyName(c).value] + [];
    assert names == [KeyName(c).value];
  }

  /** What the platform-key sink receives for one dispatch. */
  datatype NamedEvent = NamedEvent(pressed: seq<string>, released: seq<string>)

  /** The sink's arguments, pressed translated before released. */
  function TranslateEvent(pressed: seq<int>, released: seq<int>): (r: Result<NamedEvent>)
    ensures r.Ok? <==> forall c :: c in pressed + released ==> KeyName(c).Some?
    ensures r.Ok? ==> Translate(pressed) == Ok(r.value.pressed) && Translate(released) == Ok(r.value.released)
    ensures r.KeyError? ==> (r.code in pressed || r.code in released) && KeyName(r.code).None?
    ensures r.KeyError? && Translate(pressed).KeyError? ==> r.code in pressed
    ensures r.KeyError? ==>
      if Translate(pressed).KeyError? then r.code == Translate(pressed).code
      else Translate(released).KeyError? && r.code == Translate(released).code
  {
    match Translate(pressed)
    case KeyError(c) => KeyError(c)
    case Ok(p) =>
      match Translate(released)
      case KeyError(c) => KeyError(c)
      case Ok(q) => Ok(NamedEvent(p, q))
  }

  /** Modifier ids are always in the table: 1 to 4 name the left shift, left
      control, right alt and left meta keys. */
  lemma ModifierNames(m: Byte)
    ensures Translate(ModifiersOf(m)).Ok?
    ensures Translate([1, 2, 3, 4]) == Ok(["KEY_LEFTSHIFT", "KEY_LEFTCTRL", "KEY_RIGHTALT", "KEY_LEFTMETA"])
  {
    var mods := ModifiersOf(m);
    forall i | 0 <= i < |mods| ensures KeyName(mods[i]).Some? {
      assert mods[i] in mods;
    }
    var t := Translate([1, 2, 3, 4]);
    assert t.Ok?;
    assert t.value == ["KEY_LEFTSHIFT", "KEY_LEFTCTRL", "KEY_RIGHTALT", "KEY_LEFTMETA"];
  }
}
