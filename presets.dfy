/** PresetSvc (Core/Services.cs:51-100): the preset list persisted in
    presets.json, keyed by name compared case-insensitively. The file is
    modelled by what GetAll makes of it; JSON (de)serialisation is assumed
    to round-trip a list, and whether File.WriteAllText throws is an
    oracle. */
module Presets {
  import opened Text
  import opened Models

  /** Index of the first preset named `name`, ignoring case
      (`list.FirstOrDefault(x => string.Equals(x.Name, name, OrdinalIgnoreCase))`). */
  function FindByName(list: seq<Preset>, name: string): (r: Option<nat>)
    ensures r.Some? ==> r.value < |list| && EqualsIgnoreCase(list[r.value].name, name)
    ensures r.Some? ==> forall j :: 0 <= j < r.value ==> !EqualsIgnoreCase(list[j].name, name)
    ensures r.None? <==> forall j :: 0 <= j < |list| ==> !EqualsIgnoreCase(list[j].name, name)
  {
    if |list| == 0 then None
    else if EqualsIgnoreCase(list[0].name, name) then Some(0)
    else
      var rest := FindByName(list[1..], name);
      if rest.Some? then Some(rest.value + 1) else None
  }

  /** No two presets share a name, ignoring case. */
  predicate UniqueNames(list: seq<Preset>)
  {
    forall i, j :: 0 <= i < j < |list| ==> !EqualsIgnoreCase(list[i].name, list[j].name)
  }

  /** The list `Remove(name)` stores: the first preset so named is gone,
      every other preset stays, in order. */
  function Without(list: seq<Preset>, name: string): (r: seq<Preset>)
    ensures FindByName(list, name).None? ==> r == list
    ensures FindByName(list, name).Some? ==>
      var i := FindByName(list, name).value;
      |r| == |list| - 1 && r[..i] == list[..i] && r[i..] == list[i + 1..]
  {
    var ex := FindByName(list, name);
    if ex.Some? then list[..ex.value] + list[ex.value + 1..] else list
  }

  /** The list `AddOrReplace(p)` stores: `p`'s namesake (if any) removed,
      `p` appended at the end. */
  function Upsert(list: seq<Preset>, p: Preset): (r: seq<Preset>)
    ensures |r| > 0 && r[|r| - 1] == p && r[..|r| - 1] == Without(list, p.name)
  {
    Without(list, p.name) + [p]
  }

  /** Where an entry of Without's result came from: the entries before the
      removed one keep their index, the later ones move up by one. */
  lemma WithoutAt(list: seq<Preset>, name: string, j: nat)
    requires FindByName(list, name).Some? && j < |Without(list, name)|
    ensures var i := FindByName(list, name).value;
      Without(list, name)[j] == list[if j < i then j else j + 1]
  {
    var i := FindByName(list, name).value;
    var r := Without(list, name);
    if j < i {
      assert r[..i][j] == list[..i][j];
    } else {
      assert r[i..][j - i] == list[i + 1..][j - i];
    }
  }

  /** Remove loses exactly one preset, the first match, and no other:
      as multisets, the result plus that preset is the list. */
  lemma WithoutLosesOnlyMatch(list: seq<Preset>, name: string)
    ensures FindByName(list, name).None? ==> multiset(Without(list, name)) == multiset(list)
    ensures FindByName(list, name).Some? ==>
      multiset(Without(list, name)) + multiset{list[FindByName(list, name).value]} == multiset(list)
  {
    var ex := FindByName(list, name);
    if ex.Some? {
      var i := ex.value;
      assert list == list[..i] + [list[i]] + list[i + 1..];
    }
  }

  /** Two names that differ from a third in different ways: the case
      folding makes equality ignoring case transitive. */
  lemma EqualsIgnoreCaseSwap(a: string, b: string, c: string)
    requires EqualsIgnoreCase(a, c) && !EqualsIgnoreCase(a, b)
    ensures !EqualsIgnoreCase(b, c)
  {
  }

  /** With unique names, the old namesake is gone after Without. */
  lemma WithoutRemovesName(list: seq<Preset>, name: string)
    requires UniqueNames(list)
    ensures FindByName(Without(list, name), name).None?
  {
    var r := Without(list, name);
    var ex := FindByName(list, name);
    if ex.Some? {
      var i := ex.value;
      forall j | 0 <= j < |r| ensures !EqualsIgnoreCase(r[j].name, name) {
        WithoutAt(list, name, j);
        if j >= i {
          EqualsIgnoreCaseSwap(list[i].name, list[j + 1].name, name);
        }
      }
    }
  }

  /** Without keeps names unique. */
  lemma WithoutKeepsUnique(list: seq<Preset>, name: string)
    requires UniqueNames(list)
    ensures UniqueNames(Without(list, name))
  {
    var r := Without(list, name);
    var ex := FindByName(list, name);
    if ex.Some? {
      var i := ex.value;
      forall a, b | 0 <= a < b < |r| ensures !EqualsIgnoreCase(r[a].name, r[b].name) {
        WithoutAt(list, name, a);
        WithoutAt(list, name, b);
        var a' := if a < i then a else a + 1;
        var b' := if b < i then b else b + 1;
        assert a' < b';
      }
    }
  }

  /** AddOrReplace keeps names unique. */
  lemma UpsertKeepsNamesUnique(list: seq<Preset>, p: Preset)
    requires UniqueNames(list)
    ensures UniqueNames(Upsert(list, p))
  {
    WithoutRemovesName(list, p.name);
    WithoutKeepsUnique(list, p.name);
    var w := Without(list, p.name);
    var r := Upsert(list, p);
    forall a, b | 0 <= a < b < |r| ensures !EqualsIgnoreCase(r[a].name, r[b].name) {
      assert r[a] == w[a];
      if b < |w| {
        assert r[b] == w[b];
      } else {
        assert r[b] == p;
        assert !EqualsIgnoreCase(w[a].name, p.name);
      }
    }
  }

  /** After AddOrReplace, looking `p`'s name up finds `p`, at the end of
      the list. */
  lemma UpsertFindsPreset(list: seq<Preset>, p: Preset)
    requires UniqueNames(list)
    ensures FindByName(Upsert(list, p), p.name) == Some(|Upsert(list, p)| - 1)
  {
    WithoutRemovesName(list, p.name);
    var w := Without(list, p.name);
    var r := Upsert(list, p);
    forall j | 0 <= j < |w| ensures !EqualsIgnoreCase(r[j].name, p.name) {
      assert r[j] == w[j];
    }
    assert EqualsIgnoreCase(r[|w|].name, p.name);
  }

  /** Every preset of another name survives AddOrReplace, order kept. */
  lemma {:induction false} UpsertKeepsOthers(list: seq<Preset>, p: Preset, k: nat)
    requires k < |list| && !EqualsIgnoreCase(list[k].name, p.name)
    ensures list[k] in Upsert(list, p)[..|Upsert(list, p)| - 1]
  {
    var ex := FindByName(list, p.name);
    var w := Without(list, p.name);
    if ex.Some? {
      if k < ex.value { assert w[k] == list[k]; }
      else { assert k > ex.value && w[k - 1] == list[k]; }
    } else {
      assert w[k] == list[k];
    }
  }

  /** presets.json as GetAll reads it; Missing, Blank (white space only)
      and Corrupt (a read or parse exception) all read as no presets. */
  datatype PresetFile = Missing | Blank | Corrupt | Stored(presets: seq<Preset>)

  class PresetSvc {
    var file: PresetFile

    constructor (initial: PresetFile)
      ensures file == initial
    {
      file := initial;
    }

    /** `GetAll()`: never fails; anything but a stored list is empty. */
    function GetAll(): (r: seq<Preset>)
      reads this
      ensures !file.Stored? ==> r == []
    {
      if file.Stored? then file.presets else []
    }

    /** `AddOrReplace(p)`; `writeFails` is whether File.WriteAllText throws
        (swallowed by the catch). An unreadable file is overwritten by [p]. */
    method AddOrReplace(p: Preset, writeFails: bool)
      modifies this
      ensures writeFails ==> file == old(file)
      ensures !writeFails ==> file == Stored(Upsert(old(GetAll()), p))
      ensures !writeFails && !old(file).Stored? ==> GetAll() == [p]
    {
      var list := GetAll();
      var ex := FindByName(list, p.name);
      if ex.Some? {
        list := list[..ex.value] + list[ex.value + 1..];
      }
      list := list + [p];
      if !writeFails {
        file := Stored(list);
      }
    }

    /** `Remove(name)`: writes only when a preset of that name exists. */
    method Remove(name: string, writeFails: bool)
      modifies this
      ensures FindByName(old(GetAll()), name).None? || writeFails ==> file == old(file)
      ensures FindByName(old(GetAll()), name).Some? && !writeFails ==> file == Stored(Without(old(GetAll()), name))
    {
      var list := GetAll();
      var ex := FindByName(list, name);
      if ex.Some? {
        list := list[..ex.value] + list[ex.value + 1..];
        if !writeFails {
          file := Stored(list);
        }
      }
    }
  }
}
