/** The bridge between OCaml value lists and the engine's state vector:
    convert_tgv_to_c writes overrides through the code index, convert_tgv_to_ml
    reads every slot back. The state vector belongs to the engine; it is seen here
    only through its read and write entry points, as a map from cells to values
    of an opaque type V. */
module Bridge {
  import opened Wrappers
  import opened CStrings
  import opened Kinds
  import opened Index
  import opened RegistrySpec
  import opened Registry

  /** A cell of the state vector: the base value of a variable, or one element of it. */
  datatype Loc = BaseCell(desc: Option<DescRef>) | ArrayCell(desc: Option<DescRef>, offset: int)

  /** An element of the input list: a code, an element number (negative for the
      base value) and a value. */
  datatype Override<V> = Override(code: Code, id: int, value: V)

  /** An element of the output list: a code, the slot's `indice_tab` and a value. */
  datatype Item<V> = Item(code: Code, indiceTab: int, value: V)

  /** Where an override is written: IRDATA_range_base for a negative element
      number, IRDATA_range_tableau at that element otherwise. */
  function Target(desc: Option<DescRef>, id: int): (loc: Loc)
    ensures loc.desc == desc && (loc.ArrayCell? <==> 0 <= id) && (loc.ArrayCell? ==> loc.offset == id)
  {
    if id < 0 then BaseCell(desc) else ArrayCell(desc, id)
  }

  /** Where a slot is read from: IRDATA_extrait_special for a negative
      `indice_tab`, IRDATA_extrait_tableau at `indice_tab` otherwise. */
  function Source(v: Var): (loc: Loc)
    ensures loc.desc == v.desc && (loc.ArrayCell? <==> 0 <= v.indiceTab) && (loc.ArrayCell? ==> loc.offset == v.indiceTab)
  {
    if v.indiceTab < 0 then BaseCell(v.desc) else ArrayCell(v.desc, v.indiceTab)
  }

  /** T_irdata as far as this file uses it: which cells hold a value, and which. */
  class Tgv<V> {
    var cells: map<Loc, V>

    /** IRDATA_new_irdata: a state vector with no value. */
    constructor ()
      ensures cells == map[]
    {
      cells := map[];
    }

    /** IRDATA_reset_irdata: every value is dropped. */
    method Reset()
      modifies this
      ensures cells == map[]
    {
      cells := map[];
    }

    /** IRDATA_range_base and IRDATA_range_tableau: one cell receives a value. */
    method Store(loc: Loc, value: V)
      modifies this
      ensures cells == old(cells)[loc := value]
    {
      cells := cells[loc := value];
    }

    /** IRDATA_extrait_special and IRDATA_extrait_tableau: the value of a cell,
        or None for the NULL pointer of an absent value. */
    method Fetch(loc: Loc) returns (r: Option<V>)
      ensures r.Some? <==> loc in cells
      ensures r.Some? ==> r.value == cells[loc]
    {
      if loc in cells {
        r := Some(cells[loc]);
      } else {
        r := None;
      }
    }

    /** A chain or verification procedure of the engine, run on this vector. */
    method Run(f: map<Loc, V> -> map<Loc, V>)
      modifies this
      ensures cells == f(old(cells))
    {
      cells := f(cells);
    }
  }

  // ---------------------------------------------------------------------
  // convert_tgv_to_c

  /** The cell an override resolves to through the index, or None for a code
      cherche_var does not find. */
  function TargetOf<V>(entries: seq<Entry>, vs: seq<Var>, o: Override<V>): (r: Option<Loc>)
    requires SlotsBelow(entries, |vs|)
    ensures r.Some? <==> Search(entries, o.code, 0, |entries|).Some?
  {
    match Search(entries, o.code, 0, |entries|)
    case None => None
    case Some(slot) => Some(Target(vs[slot].desc, o.id))
  }

  /** The overrides i.. applied in list order; the first unknown code aborts. */
  function Apply<V>(entries: seq<Entry>, vs: seq<Var>, ovs: seq<Override<V>>, i: nat, m: map<Loc, V>): (r: Result<map<Loc, V>, Fault>)
    requires i <= |ovs| && SlotsBelow(entries, |vs|)
    ensures r.Ok? ==> m.Keys <= r.value.Keys
    decreases |ovs| - i
  {
    if i == |ovs| then Ok(m)
    else
      match TargetOf(entries, vs, ovs[i])
      case None => Err(UnknownVariable(ovs[i].code))
      case Some(loc) => Apply(entries, vs, ovs, i + 1, m[loc := ovs[i].value])
  }

  /** Applying succeeds exactly when every code is in the index; otherwise it
      names the first code that is not. */
  lemma {:induction false} ApplyOk<V>(entries: seq<Entry>, vs: seq<Var>, ovs: seq<Override<V>>, i: nat, m: map<Loc, V>)
    requires i <= |ovs| && SlotsBelow(entries, |vs|)
    ensures Apply(entries, vs, ovs, i, m).Ok? <==>
              forall k :: i <= k < |ovs| ==> TargetOf(entries, vs, ovs[k]).Some?
    ensures Apply(entries, vs, ovs, i, m).Err? ==>
              exists k :: i <= k < |ovs| && TargetOf(entries, vs, ovs[k]).None?
                && Apply(entries, vs, ovs, i, m).error == UnknownVariable(ovs[k].code)
                && forall k' :: i <= k' < k ==> TargetOf(entries, vs, ovs[k']).Some?
    decreases |ovs| - i
  {
    if i < |ovs| {
      match TargetOf(entries, vs, ovs[i])
      case None =>
      case Some(loc) =>
        ApplyOk(entries, vs, ovs, i + 1, m[loc := ovs[i].value]);
    }
  }

  /** A cell no override i.. targets keeps what it had. */
  lemma {:induction false} ApplyKeeps<V>(entries: seq<Entry>, vs: seq<Var>, ovs: seq<Override<V>>, i: nat, m: map<Loc, V>, loc: Loc)
    requires i <= |ovs| && SlotsBelow(entries, |vs|) && Apply(entries, vs, ovs, i, m).Ok?
    requires forall k :: i <= k < |ovs| ==> TargetOf(entries, vs, ovs[k]) != Some(loc)
    ensures var m' := Apply(entries, vs, ovs, i, m).value;
      (loc in m' <==> loc in m) && (loc in m ==> m'[loc] == m[loc])
    decreases |ovs| - i
  {
    if i < |ovs| {
      var t := TargetOf(entries, vs, ovs[i]).value;
      ApplyKeeps(entries, vs, ovs, i + 1, m[t := ovs[i].value], loc);
    }
  }

  /** The last override for a cell wins: its value is what the cell holds. */
  lemma {:induction false} ApplyLastWins<V>(entries: seq<Entry>, vs: seq<Var>, ovs: seq<Override<V>>, i: nat, m: map<Loc, V>, k: nat)
    requires i <= k < |ovs| && SlotsBelow(entries, |vs|) && Apply(entries, vs, ovs, i, m).Ok?
    requires TargetOf(entries, vs, ovs[k]).Some?
    requires forall k' :: k < k' < |ovs| ==> TargetOf(entries, vs, ovs[k']) != TargetOf(entries, vs, ovs[k])
    ensures var m' := Apply(entries, vs, ovs, i, m).value;
      TargetOf(entries, vs, ovs[k]).value in m' && m'[TargetOf(entries, vs, ovs[k]).value] == ovs[k].value
    decreases |ovs| - i
  {
    var t := TargetOf(entries, vs, ovs[i]).value;
    if k == i {
      ApplyKeeps(entries, vs, ovs, i + 1, m[t := ovs[i].value], t);
    } else {
      ApplyLastWins(entries, vs, ovs, i + 1, m[t := ovs[i].value], k);
    }
  }

  /** convert_tgv_to_c: each override in list order is looked up in the index and
      written to the base cell or the array cell its element number selects. */
  method ConvertTgvToC<V>(reg: Registry, tgv: Tgv<V>, ovs: seq<Override<V>>) returns (out: Outcome<Fault>)
    requires reg.Valid()
    modifies tgv
    ensures Apply(reg.index.Contents(), reg.vars[..], ovs, 0, old(tgv.cells))
              == if out.Pass? then Ok(tgv.cells) else Err(out.error)
  {
    var i := 0;
    while i < |ovs|
      invariant i <= |ovs|
      invariant Apply(reg.index.Contents(), reg.vars[..], ovs, 0, old(tgv.cells))
                  == Apply(reg.index.Contents(), reg.vars[..], ovs, i, tgv.cells)
    {
      var slot := reg.Lookup(ovs[i].code);
      if slot.None? {
        return Fail(UnknownVariable(ovs[i].code));
      }
      var desc := reg.vars[slot.value].desc;
      if ovs[i].id < 0 {
        tgv.Store(BaseCell(desc), ovs[i].value);
      } else {
        tgv.Store(ArrayCell(desc, ovs[i].id), ovs[i].value);
      }
      i := i + 1;
    }
    return Pass;
  }

  // ---------------------------------------------------------------------
  // convert_tgv_to_ml

  /** The value a slot reads, or None when its cell holds none. */
  function Read<V>(m: map<Loc, V>, v: Var): Option<V> {
    if Source(v) in m then Some(m[Source(v)]) else None
  }

  /** The scan over slots 0..n-1: a slot without code aborts, a slot without a
      value is skipped, every other slot is put in front of the list. */
  function Extract<V>(vs: seq<Var>, m: map<Loc, V>, n: nat): (r: Result<seq<Item<V>>, Fault>)
    requires n <= |vs|
    ensures r.Ok? ==> |r.value| <= n
  {
    if n == 0 then Ok([])
    else
      var acc :- Extract(vs, m, n - 1);
      if vs[n - 1].code.None? then Err(UndefinedCode(n - 1))
      else match Read(m, vs[n - 1])
        case None => Ok(acc)
        case Some(x) => Ok([Item(vs[n - 1].code.value, vs[n - 1].indiceTab, x)] + acc)
  }

  /** The slots below n that have a code and a value, highest first. */
  function PresentSlots<V>(vs: seq<Var>, m: map<Loc, V>, n: nat): (ps: seq<nat>)
    requires n <= |vs|
    ensures forall a :: 0 <= a < |ps| ==> ps[a] < n
    ensures forall a, b :: 0 <= a < b < |ps| ==> ps[a] > ps[b]
    ensures forall k :: 0 <= k < n ==> (k in ps <==> vs[k].code.Some? && Read(m, vs[k]).Some?)
  {
    if n == 0 then []
    else if vs[n - 1].code.Some? && Read(m, vs[n - 1]).Some? then [n - 1] + PresentSlots(vs, m, n - 1)
    else PresentSlots(vs, m, n - 1)
  }

  /** Extraction succeeds exactly when every slot has a code, and otherwise names
      the first slot without one. */
  lemma {:induction false} ExtractOk<V>(vs: seq<Var>, m: map<Loc, V>, n: nat)
    requires n <= |vs|
    ensures Extract(vs, m, n).Ok? <==> forall k :: 0 <= k < n ==> vs[k].code.Some?
    ensures Extract(vs, m, n).Err? ==>
      var e := Extract(vs, m, n).error;
      && e.UndefinedCode? && e.slot < n && vs[e.slot].code.None?
      && forall k :: 0 <= k < e.slot ==> vs[k].code.Some?
  {
    if n > 0 {
      ExtractOk(vs, m, n - 1);
    }
  }

  /** On success the list holds one item per slot with a value, in descending
      slot order, each carrying that slot's code, `indice_tab` and value. */
  lemma {:induction false} ExtractItems<V>(vs: seq<Var>, m: map<Loc, V>, n: nat)
    requires n <= |vs| && Extract(vs, m, n).Ok?
    ensures var items := Extract(vs, m, n).value;
      var ps := PresentSlots(vs, m, n);
      && |items| == |ps|
      && forall a :: 0 <= a < |ps| ==>
           items[a] == Item(vs[ps[a]].code.value, vs[ps[a]].indiceTab, Read(m, vs[ps[a]]).value)
  {
    if n > 0 {
      ExtractItems(vs, m, n - 1);
      var acc := Extract(vs, m, n - 1).value;
      var ps0 := PresentSlots(vs, m, n - 1);
      var items := Extract(vs, m, n).value;
      var ps := PresentSlots(vs, m, n);
      if Read(m, vs[n - 1]).Some? {
        assert items == [Item(vs[n - 1].code.value, vs[n - 1].indiceTab, Read(m, vs[n - 1]).value)] + acc;
        assert ps == [n - 1] + ps0;
        forall a | 1 <= a < |ps|
          ensures items[a] == Item(vs[ps[a]].code.value, vs[ps[a]].indiceTab, Read(m, vs[ps[a]]).value)
        {
          assert items[a] == acc[a - 1] && ps[a] == ps0[a - 1];
        }
      } else {
        assert items == acc && ps == ps0;
      }
    }
  }

  /** convert_tgv_to_ml: every slot is read from the cell its `indice_tab`
      selects; the result is built by prepending. */
  method ConvertTgvToMl<V>(reg: Registry, tgv: Tgv<V>) returns (r: Result<seq<Item<V>>, Fault>)
    ensures r == Extract(reg.vars[..], tgv.cells, reg.vars.Length)
  {
    var acc := [];
    var i := 0;
    while i < reg.vars.Length
      invariant i <= reg.vars.Length
      invariant Extract(reg.vars[..], tgv.cells, i) == Ok(acc)
    {
      var v := reg.vars[i];
      if v.code.None? {
        ExtractOk(reg.vars[..], tgv.cells, i);
        ExtractOk(reg.vars[..], tgv.cells, reg.vars.Length);
        return Err(UndefinedCode(i));
      }
      var x;
      if v.indiceTab < 0 {
        x := tgv.Fetch(BaseCell(v.desc));
      } else {
        x := tgv.Fetch(ArrayCell(v.desc, v.indiceTab));
      }
      if x.Some? {
        acc := [Item(v.code.value, v.indiceTab, x.value)] + acc;
      }
      i := i + 1;
    }
    assert reg.vars[..] == reg.vars[..reg.vars.Length];
    return Ok(acc);
  }

  // ---------------------------------------------------------------------
  // Round trip

  /** A value written by an override that no later override shadows comes back
      from every coded slot that reads the cell it was written to. */
  lemma RoundTrip<V>(entries: seq<Entry>, vs: seq<Var>, ovs: seq<Override<V>>, m0: map<Loc, V>, k: nat, t: nat)
    requires SlotsBelow(entries, |vs|) && Apply(entries, vs, ovs, 0, m0).Ok?
    requires k < |ovs| && TargetOf(entries, vs, ovs[k]).Some?
    requires forall k' :: k < k' < |ovs| ==> TargetOf(entries, vs, ovs[k']) != TargetOf(entries, vs, ovs[k])
    requires t < |vs| && vs[t].code.Some? && Source(vs[t]) == TargetOf(entries, vs, ovs[k]).value
    requires Extract(vs, Apply(entries, vs, ovs, 0, m0).value, |vs|).Ok?
    ensures Item(vs[t].code.value, vs[t].indiceTab, ovs[k].value)
              in Extract(vs, Apply(entries, vs, ovs, 0, m0).value, |vs|).value
  {
    var m := Apply(entries, vs, ovs, 0, m0).value;
    ApplyLastWins(entries, vs, ovs, 0, m0, k);
    assert Read(m, vs[t]) == Some(ovs[k].value);
    ExtractItems(vs, m, |vs|);
    var ps := PresentSlots(vs, m, |vs|);
    var a :| 0 <= a < |ps| && ps[a] == t;
  }

  /** Element `e` of an array variable, written by its code, is read back from
      slot head + e after compaction: the override's cell is the one that slot
      reads. */
  lemma ArrayElementCell(vs: seq<Var>, h: nat, e: nat, j: nat)
    requires h < j < e <= |vs| && (h == 0 || vs[h].code.Some?)
    requires forall m :: h < m < e ==> vs[m].code.None?
    ensures Source(Compacted(vs)[j]) == Target(vs[h].desc, j - h)
    ensures Source(Compacted(vs)[h]) == Target(vs[h].desc, 0)
  {
    CompactRun(vs, h, e, j);
  }
}
