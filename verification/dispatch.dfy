/** The two entry points that run engine code by name: ml_exec_ench runs a
    chain, ml_exec_verif a verification. Both build the registry if needed,
    start from an empty state vector, write the overrides, look the name up in a
    fixed table and return every value the vector then holds. */
module Dispatch {
  import opened Wrappers
  import opened CStrings
  import opened Kinds
  import opened Index
  import opened RegistrySpec
  import opened Registry
  import opened Bridge

  /** The names of the `enchaineurs` table, in table order. Two names occur twice. */
  const Enchaineurs: seq<Code> := [
    "calcul_primitif", "calcul_primitif_isf", "calcul_primitif_taux", "calcul_correctif",
    "sauve_base_initial", "sauve_base_1728", "sauve_base_anterieure_cor", "sauve_base_premier",
    "sauve_base_tl_init", "sauve_base_tl", "sauve_base_tl_rect", "sauve_base_tlnunv",
    "sauve_base_inr_r9901", "sauve_base_inr_cimr99", "sauve_base_HR", "sauve_base_inr_cimr07",
    "sauve_base_inr_tlcimr07", "sauve_base_inr_cimr24", "sauve_base_inr_tlcimr24", "sauve_base_inr_ref",
    "sauve_base_inr_ntl", "sauve_base_abat98", "sauve_base_inr_ntl", "sauve_base_inr_intertl",
    "sauve_base_inr_ntl22", "sauve_base_inr", "sauve_base_inr_ntl24", "sauve_base_inr_tl",
    "sauve_base_abat99", "sauve_base_inr_tl", "sauve_base_inr_tl22", "sauve_base_inr_tl24",
    "sauve_base_inr_inter22", "sauve_base_majo", "sauve_base_anterieure", "sauve_base_stratemajo",
    "ENCH_TL"]

  /** The names of the `verifications` table, in table order. */
  const Verifications: seq<Code> := [
    "verif_calcul_primitive", "verif_calcul_primitive_isf", "verif_calcul_corrective",
    "verif_saisie_cohe_primitive", "verif_saisie_cohe_primitive_isf",
    "verif_saisie_cohe_corrective", "verif_cohe_horizontale"]

  /** An engine procedure: a chain, or a verification whose discrepancy list is
      dropped, seen as what it does to the state vector. */
  type Procedure<!V> = map<Loc, V> -> map<Loc, V>

  /** The first position at or after i whose name is `name`. */
  function FirstMatch(names: seq<Code>, name: Code, i: nat): (r: Option<nat>)
    requires i <= |names|
    ensures r.Some? ==> i <= r.value < |names| && names[r.value] == name
                        && forall k :: i <= k < r.value ==> names[k] != name
    ensures r.None? <==> forall k :: i <= k < |names| ==> names[k] != name
    decreases |names| - i
  {
    if i == |names| then None
    else if names[i] == name then Some(i)
    else FirstMatch(names, name, i + 1)
  }

  /** The name scan of ml_exec_ench and ml_exec_verif: stop at the first entry
      `strcmp` finds equal. */
  method FindByName(names: seq<Code>, name: Code) returns (r: Option<nat>)
    ensures r == FirstMatch(names, name, 0)
  {
    var i := 0;
    while i < |names|
      invariant i <= |names|
      invariant FirstMatch(names, name, 0) == FirstMatch(names, name, i)
    {
      if Cmp(name, names[i]) == 0 {
        CmpZero(name, names[i]);
        return Some(i);
      }
      CmpZero(name, names[i]);
      i := i + 1;
    }
    return None;
  }

  /** The second `sauve_base_inr_ntl` (position 22) and the second
      `sauve_base_inr_tl` (position 29) can never be selected. */
  lemma ShadowedEntries(name: Code)
    ensures FirstMatch(Enchaineurs, name, 0) != Some(22)
    ensures FirstMatch(Enchaineurs, name, 0) != Some(29)
  {
    assert Enchaineurs[20] == Enchaineurs[22];
    assert Enchaineurs[27] == Enchaineurs[29];
  }

  /** What one call computes once the registry is built: the overrides written
      to an empty state vector, the procedure found by name run on it, and every
      slot read back. An unknown code is reported before an unknown name. */
  function Exec<V>(st: St, ovs: seq<Override<V>>, names: seq<Code>, procs: seq<Procedure<V>>,
                   name: Code, unknown: Fault): (r: Result<seq<Item<V>>, Fault>)
    requires SlotsBelow(st.entries, |st.vars|) && |procs| == |names|
    ensures r.Ok? ==> name in names && |r.value| <= |st.vars|
  {
    var m :- Apply(st.entries, st.vars, ovs, 0, map[]);
    match FirstMatch(names, name, 0)
    case None => Err(unknown)
    case Some(k) => Extract(st.vars, procs[k](m), |st.vars|)
  }

  /** A call succeeds exactly when every override's code is indexed, the name is
      in the table and every slot has a code; its result then lists the values
      the procedure left, highest slot first. */
  lemma ExecOk<V>(st: St, ovs: seq<Override<V>>, names: seq<Code>, procs: seq<Procedure<V>>,
                  name: Code, unknown: Fault)
    requires SlotsBelow(st.entries, |st.vars|) && |procs| == |names|
    ensures Exec(st, ovs, names, procs, name, unknown).Ok? <==>
      && (forall k :: 0 <= k < |ovs| ==> TargetOf(st.entries, st.vars, ovs[k]).Some?)
      && name in names
      && (forall k :: 0 <= k < |st.vars| ==> st.vars[k].code.Some?)
    ensures Exec(st, ovs, names, procs, name, unknown).Ok? ==>
      var m := procs[FirstMatch(names, name, 0).value](Apply(st.entries, st.vars, ovs, 0, map[]).value);
      var items := Exec(st, ovs, names, procs, name, unknown).value;
      var ps := PresentSlots(st.vars, m, |st.vars|);
      && |items| == |ps|
      && forall a :: 0 <= a < |ps| ==>
           items[a] == Item(st.vars[ps[a]].code.value, st.vars[ps[a]].indiceTab, Read(m, st.vars[ps[a]]).value)
  {
    ApplyOk(st.entries, st.vars, ovs, 0, map[]);
    var a := Apply(st.entries, st.vars, ovs, 0, map[]);
    if a.Ok? && FirstMatch(names, name, 0).Some? {
      var m := procs[FirstMatch(names, name, 0).value](a.value);
      ExtractOk(st.vars, m, |st.vars|);
      if Extract(st.vars, m, |st.vars|).Ok? {
        ExtractItems(st.vars, m, |st.vars|);
      }
    }
  }

  /** The globals of the stub file: the registry, the state vector `tgv` (NULL
      until the first call) and the two procedure tables. */
  class Stubs<V> {
    const reg: Registry
    var tgv: Tgv?<V>
    const chains: seq<Procedure<V>>
    const verifs: seq<Procedure<V>>

    ghost predicate Valid()
      reads this, reg, reg.index, reg.index.data
    {
      reg.Valid() && |chains| == |Enchaineurs| && |verifs| == |Verifications|
    }

    constructor (c: Conf, tb: Tables, chains: seq<Procedure<V>>, verifs: seq<Procedure<V>>)
      requires c.Valid() && |chains| == |Enchaineurs| && |verifs| == |Verifications|
      ensures Valid() && tgv == null && !reg.loaded && reg.State() == Initial(c)
      ensures reg.conf == c && reg.tables == tb && this.chains == chains && this.verifs == verifs
      ensures fresh(reg) && fresh(reg.vars) && fresh(reg.index) && fresh(reg.index.data)
    {
      reg := new Registry(c, tb);
      tgv := null;
      this.chains := chains;
      this.verifs := verifs;
    }

    /** What ml_exec_ench and ml_exec_verif do once the registry is built:
        allocate or reset the state vector, write the overrides, find the
        procedure by name, run it and read every slot back. */
    method RunProcedure(names: seq<Code>, procs: seq<Procedure<V>>, name: Code, ovs: seq<Override<V>>, unknown: Fault)
      returns (r: Result<seq<Item<V>>, Fault>)
      requires Valid() && |procs| == |names|
      modifies this, tgv
      ensures r == Exec(reg.State(), ovs, names, procs, name, unknown)
      ensures tgv == old(tgv) || fresh(tgv)
      ensures tgv != null
      ensures r.Ok? ==> FirstMatch(names, name, 0).Some?
                        && Apply(reg.State().entries, reg.State().vars, ovs, 0, map[]).Ok?
                        && tgv.cells == procs[FirstMatch(names, name, 0).value](
                             Apply(reg.State().entries, reg.State().vars, ovs, 0, map[]).value)
    {
      ghost var st := reg.State();
      if tgv == null {
        tgv := new Tgv();
      } else {
        tgv.Reset();
      }
      var conv := ConvertTgvToC(reg, tgv, ovs);
      ghost var applied := Apply(st.entries, st.vars, ovs, 0, map[]);
      assert applied == if conv.Pass? then Ok(tgv.cells) else Err(conv.error);
      if conv.Fail? {
        return Err(conv.error);
      }
      var k := FindByName(names, name);
      if k.None? {
        return Err(unknown);
      }
      tgv.Run(procs[k.value]);
      r := ConvertTgvToMl(reg, tgv);
      assert r == Extract(st.vars, procs[k.value](applied.value), |st.vars|);
    }

    /** The part ml_exec_ench and ml_exec_verif share: build the registry once,
        then run the procedure. */
    method Execute(names: seq<Code>, procs: seq<Procedure<V>>, name: Code, ovs: seq<Override<V>>, unknown: Fault)
      returns (r: Result<seq<Item<V>>, Fault>)
      requires Valid() && |procs| == |names|
      modifies this, reg, reg.vars, reg.index, reg.index.data, tgv
      ensures Valid() && reg.loaded
      ensures reg.index.data == old(reg.index.data) || fresh(reg.index.data)
      ensures tgv == old(tgv) || fresh(tgv)
      ensures !old(reg.loaded) && Build(reg.conf, reg.tables, old(reg.State())).Err? ==>
                r == Err(Build(reg.conf, reg.tables, old(reg.State())).error)
      ensures old(reg.loaded) || Build(reg.conf, reg.tables, old(reg.State())).Ok? ==>
                r == Exec(reg.State(), ovs, names, procs, name, unknown)
      ensures old(reg.loaded) ==> reg.State() == old(reg.State())
      ensures !old(reg.loaded) && Build(reg.conf, reg.tables, old(reg.State())).Ok? ==>
                reg.vars[..] == Build(reg.conf, reg.tables, old(reg.State())).value.vars
                && Sorted(reg.index.Contents())
                && multiset(reg.index.Contents()) == multiset(Build(reg.conf, reg.tables, old(reg.State())).value.entries)
    {
      var init := reg.InitVarDict();
      if init.Fail? {
        return Err(init.error);
      }
      r := RunProcedure(names, procs, name, ovs, unknown);
    }

    /** ml_exec_ench: runs the chain of that name. */
    method ExecEnch(name: Code, ovs: seq<Override<V>>) returns (r: Result<seq<Item<V>>, Fault>)
      requires Valid()
      modifies this, reg, reg.vars, reg.index, reg.index.data, tgv
      ensures Valid() && reg.loaded
      ensures reg.index.data == old(reg.index.data) || fresh(reg.index.data)
      ensures tgv == old(tgv) || fresh(tgv)
      ensures !old(reg.loaded) && Build(reg.conf, reg.tables, old(reg.State())).Err? ==>
                r == Err(Build(reg.conf, reg.tables, old(reg.State())).error)
      ensures old(reg.loaded) || Build(reg.conf, reg.tables, old(reg.State())).Ok? ==>
                r == Exec(reg.State(), ovs, Enchaineurs, chains, name, UnknownChain(name))
      ensures old(reg.loaded) ==> reg.State() == old(reg.State())
      ensures !old(reg.loaded) && Build(reg.conf, reg.tables, old(reg.State())).Ok? ==>
                reg.vars[..] == Build(reg.conf, reg.tables, old(reg.State())).value.vars
                && Sorted(reg.index.Contents())
                && multiset(reg.index.Contents()) == multiset(Build(reg.conf, reg.tables, old(reg.State())).value.entries)
    {
      r := Execute(Enchaineurs, chains, name, ovs, UnknownChain(name));
    }

    /** ml_exec_verif: runs the verification of that name; its list of
        discrepancies is dropped. */
    method ExecVerif(name: Code, ovs: seq<Override<V>>) returns (r: Result<seq<Item<V>>, Fault>)
      requires Valid()
      modifies this, reg, reg.vars, reg.index, reg.index.data, tgv
      ensures Valid() && reg.loaded
      ensures reg.index.data == old(reg.index.data) || fresh(reg.index.data)
      ensures tgv == old(tgv) || fresh(tgv)
      ensures !old(reg.loaded) && Build(reg.conf, reg.tables, old(reg.State())).Err? ==>
                r == Err(Build(reg.conf, reg.tables, old(reg.State())).error)
      ensures old(reg.loaded) || Build(reg.conf, reg.tables, old(reg.State())).Ok? ==>
                r == Exec(reg.State(), ovs, Verifications, verifs, name, UnknownVerification(name))
      ensures old(reg.loaded) ==> reg.State() == old(reg.State())
      ensures !old(reg.loaded) && Build(reg.conf, reg.tables, old(reg.State())).Ok? ==>
                reg.vars[..] == Build(reg.conf, reg.tables, old(reg.State())).value.vars
                && Sorted(reg.index.Contents())
                && multiset(reg.index.Contents()) == multiset(Build(reg.conf, reg.tables, old(reg.State())).value.entries)
    {
      r := Execute(Verifications, verifs, name, ovs, UnknownVerification(name));
    }
  }

  /** The first ml_exec_ench of a process: the stubs start from their static
      state, the registry is built from blank slots, and the chain runs on the
      built slots and a sorted arrangement of the built index entries. */
  method FirstExecEnch<V>(c: Conf, tb: Tables, chains: seq<Procedure<V>>, verifs: seq<Procedure<V>>,
                          name: Code, ovs: seq<Override<V>>) returns (r: Result<seq<Item<V>>, Fault>)
    requires c.Valid() && |chains| == |Enchaineurs| && |verifs| == |Verifications|
    ensures Build(c, tb, Initial(c)).Err? ==> r == Err(Build(c, tb, Initial(c)).error)
    ensures Build(c, tb, Initial(c)).Ok? ==>
      exists e :: Sorted(e) && multiset(e) == multiset(Build(c, tb, Initial(c)).value.entries)
        && SlotsBelow(e, |Build(c, tb, Initial(c)).value.vars|)
        && r == Exec(St(Build(c, tb, Initial(c)).value.vars, e), ovs, Enchaineurs, chains, name, UnknownChain(name))
  {
    var stubs := new Stubs(c, tb, chains, verifs);
    r := stubs.ExecEnch(name, ovs);
    if Build(c, tb, Initial(c)).Ok? {
      ghost var e := stubs.reg.index.Contents();
      assert stubs.reg.State() == St(Build(c, tb, Initial(c)).value.vars, e);
    }
  }

  /** Two ml_exec_ench calls in one process: the second finds the registry
      built by the first, leaves it as it is, and runs on it, reusing the
      state vector the first call allocated. */
  method SecondExecEnch<V>(c: Conf, tb: Tables, chains: seq<Procedure<V>>, verifs: seq<Procedure<V>>,
                           name1: Code, ovs1: seq<Override<V>>, name2: Code, ovs2: seq<Override<V>>)
    returns (r1: Result<seq<Item<V>>, Fault>, r2: Result<seq<Item<V>>, Fault>)
    requires c.Valid() && |chains| == |Enchaineurs| && |verifs| == |Verifications|
    ensures Build(c, tb, Initial(c)).Err? ==> r1 == Err(Build(c, tb, Initial(c)).error)
    ensures Build(c, tb, Initial(c)).Ok? ==>
      exists e :: Sorted(e) && multiset(e) == multiset(Build(c, tb, Initial(c)).value.entries)
        && SlotsBelow(e, |Build(c, tb, Initial(c)).value.vars|)
        && r1 == Exec(St(Build(c, tb, Initial(c)).value.vars, e), ovs1, Enchaineurs, chains, name1, UnknownChain(name1))
        && r2 == Exec(St(Build(c, tb, Initial(c)).value.vars, e), ovs2, Enchaineurs, chains, name2, UnknownChain(name2))
  {
    var stubs := new Stubs(c, tb, chains, verifs);
    r1 := stubs.ExecEnch(name1, ovs1);
    ghost var built := stubs.reg.State();
    r2 := stubs.ExecEnch(name2, ovs2);
    assert stubs.reg.State() == built;
    if Build(c, tb, Initial(c)).Ok? {
      ghost var e := stubs.reg.index.Contents();
      assert built == St(Build(c, tb, Initial(c)).value.vars, e);
    }
  }

  /** ml_charge_vars followed by ml_exec_ench, as a client calls them: the
      catalogue and the run both describe the one built registry. */
  method ChargeThenExecEnch<V>(c: Conf, tb: Tables, chains: seq<Procedure<V>>, verifs: seq<Procedure<V>>,
                               name: Code, ovs: seq<Override<V>>)
    returns (cat: Result<seq<VarInfo>, Fault>, r: Result<seq<Item<V>>, Fault>)
    requires c.Valid() && |chains| == |Enchaineurs| && |verifs| == |Verifications|
    ensures Build(c, tb, Initial(c)).Err? ==> cat == Err(Build(c, tb, Initial(c)).error)
    ensures Build(c, tb, Initial(c)).Ok? ==>
      cat == Catalogue(Build(c, tb, Initial(c)).value.vars, |Build(c, tb, Initial(c)).value.vars|)
    ensures Build(c, tb, Initial(c)).Ok? ==>
      exists e :: Sorted(e) && multiset(e) == multiset(Build(c, tb, Initial(c)).value.entries)
        && SlotsBelow(e, |Build(c, tb, Initial(c)).value.vars|)
        && r == Exec(St(Build(c, tb, Initial(c)).value.vars, e), ovs, Enchaineurs, chains, name, UnknownChain(name))
  {
    var stubs := new Stubs(c, tb, chains, verifs);
    cat := stubs.reg.ChargeVars();
    ghost var built := stubs.reg.State();
    r := stubs.ExecEnch(name, ovs);
    assert stubs.reg.State() == built;
    if Build(c, tb, Initial(c)).Ok? {
      ghost var e := stubs.reg.index.Contents();
      assert built == St(Build(c, tb, Initial(c)).value.vars, e);
    }
  }

}
