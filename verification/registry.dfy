/** The registry as the C code keeps it: the static slot array `var[]`, the code
    index and the once-only flag `var_chargees`, filled by init_var_dict. Each
    pass is a loop proved against its function in RegistrySpec. */
module Registry {
  import opened Wrappers
  import opened CStrings
  import opened Kinds
  import opened Index
  import opened RegistrySpec

  class Registry {
    /** The engine's header constants and its generated descriptor tables. */
    const conf: Conf
    const tables: Tables
    /** var[TAILLE_TOTALE]. */
    const vars: array<Var>
    const index: VarIndex
    /** var_chargees. */
    var loaded: bool

    ghost predicate Valid()
      reads this, index, index.data
    {
      && conf.Valid() && vars.Length == conf.tailleTotale
      && index.Valid() && SlotsBelow(index.Contents(), vars.Length)
    }

    /** The slots and the index entries, as a value. */
    ghost function State(): St
      reads this, vars, index, index.data
      requires index.Valid()
    {
      St(vars[..], index.Contents())
    }

    /** The program's start: every slot zeroed, no index, not loaded. */
    constructor (c: Conf, tb: Tables)
      requires c.Valid()
      ensures Valid() && !loaded && conf == c && tables == tb
      ensures State() == Initial(c)
      ensures fresh(vars) && fresh(index) && fresh(index.data)
    {
      conf := c;
      tables := tb;
      vars := new Var[c.tailleTotale](_ => Blank);
      index := new VarIndex();
      loaded := false;
      new;
      assert vars[..] == Initial(c).vars;
    }

    /** The body of an input-domain loop for record `d` at position `pos`. */
    method InputRecord(it: InputTable, d: Desc, pos: nat) returns (out: Outcome<Fault>)
      requires Valid()
      modifies vars, index, index.data
      ensures Valid() && (index.data == old(index.data) || fresh(index.data))
      ensures InputStep(conf, it, d, pos, old(State())) == if out.Pass? then Ok(State()) else Err(out.error)
    {
      var id := Masked(conf, d.indice);
      if id >= vars.Length {
        return Fail(SlotOutOfRange(id));
      }
      if vars[id].desc.Some? {
        return Fail(SlotTaken(id));
      }
      var v := InputVar(conf, it, d, pos);
      if v.Err? {
        return Fail(v.error);
      }
      vars[id] := v.value;
      var ok := index.Add(Some(d.nom), Some(id));
      return Pass;
    }

    /** One input-domain loop of init_var_dict over the table `it`. */
    method LoadInputs(it: InputTable, descs: seq<Desc>) returns (out: Outcome<Fault>)
      requires Valid()
      modifies vars, index, index.data
      ensures Valid() && (index.data == old(index.data) || fresh(index.data))
      ensures InputPass(conf, it, descs, 0, old(State())) == if out.Pass? then Ok(State()) else Err(out.error)
    {
      var i := 0;
      while i < |descs|
        invariant Valid() && i <= |descs|
        invariant index.data == old(index.data) || fresh(index.data)
        invariant InputPass(conf, it, descs, 0, old(State())) == InputPass(conf, it, descs, i, State())
      {
        out := InputRecord(it, descs[i], i);
        if out.Fail? {
          return;
        }
        i := i + 1;
      }
      return Pass;
    }

    /** The six input-domain loops of init_var_dict, in order. */
    method LoadAllInputs() returns (out: Outcome<Fault>)
      requires Valid()
      modifies vars, index, index.data
      ensures Valid() && (index.data == old(index.data) || fresh(index.data))
      ensures InputPasses(conf, tables, old(State())) == if out.Pass? then Ok(State()) else Err(out.error)
    {
      out := LoadInputs(IContexte, tables.contexte);
      if out.Fail? { return; }
      out := LoadInputs(IFamille, tables.famille);
      if out.Fail? { return; }
      out := LoadInputs(IRevenu, tables.revenu);
      if out.Fail? { return; }
      out := LoadInputs(IRevenuCorrec, tables.revenuCorrec);
      if out.Fail? { return; }
      out := LoadInputs(IVariation, tables.variation);
      if out.Fail? { return; }
      out := LoadInputs(IPenalite, tables.penalite);
    }

    /** The body of the debug-table loop for record `d` at position `pos`. */
    method DebugRecord(d: Desc, pos: nat) returns (out: Outcome<Fault>)
      requires Valid()
      modifies vars, index, index.data
      ensures Valid() && (index.data == old(index.data) || fresh(index.data))
      ensures DebugStep(conf, d, pos, old(State())) == if out.Pass? then Ok(State()) else Err(out.error)
    {
      var g := ConvertGenre(conf, d.indice);
      if g.Err? {
        return Fail(g.error);
      }
      var id := SlotId(conf, g.value, d.indice);
      if id >= vars.Length {
        return Fail(SlotOutOfRange(id));
      }
      if g.value == GSaisie {
        if vars[id].desc.None? {
          return Fail(SlotUndefined(id));
        }
        if vars[id].alias.None? {
          return Fail(NoAlias(id));
        }
        if Cmp(vars[id].alias.value, d.nom) != 0 {
          vars[id] := vars[id].(code := Some(d.nom));
          var ok := index.Add(Some(d.nom), Some(id));
        }
      } else {
        if vars[id].desc.Some? {
          return Fail(SlotTaken(id));
        }
        var v := ComputedVar(conf, g.value, d, pos);
        if v.Err? {
          return Fail(v.error);
        }
        vars[id] := v.value;
        var ok := index.Add(v.value.code, Some(id));
      }
      return Pass;
    }

    /** The debug-table loop of init_var_dict. */
    method LoadDebug() returns (out: Outcome<Fault>)
      requires Valid()
      modifies vars, index, index.data
      ensures Valid() && (index.data == old(index.data) || fresh(index.data))
      ensures DebugPass(conf, tables.debug01, 0, old(State())) == if out.Pass? then Ok(State()) else Err(out.error)
    {
      var descs := tables.debug01;
      var i := 0;
      while i < |descs|
        invariant Valid() && i <= |descs|
        invariant index.data == old(index.data) || fresh(index.data)
        invariant DebugPass(conf, descs, 0, old(State())) == DebugPass(conf, descs, i, State())
      {
        out := DebugRecord(descs[i], i);
        if out.Fail? {
          return;
        }
        i := i + 1;
      }
      return Pass;
    }

    /** The restituée loop of init_var_dict. */
    method LoadRestituee() returns (out: Outcome<Fault>)
      requires Valid()
      modifies vars
      ensures RestitueePass(conf, tables.restituee, 0, old(vars[..])) == if out.Pass? then Ok(vars[..]) else Err(out.error)
    {
      var descs := tables.restituee;
      var i := 0;
      while i < |descs|
        invariant i <= |descs|
        invariant RestitueePass(conf, descs, 0, old(vars[..])) == RestitueePass(conf, descs, i, vars[..])
      {
        var d := descs[i];
        var g := ConvertGenre(conf, d.indice);
        if g.Err? {
          return Fail(g.error);
        }
        var id := SlotId(conf, g.value, d.indice);
        if id >= vars.Length {
          return Fail(SlotOutOfRange(id));
        }
        if vars[id].desc.None? {
          return Fail(SlotUndefined(id));
        }
        vars[id] := vars[id].(restituee := true);
        i := i + 1;
      }
      return Pass;
    }

    /** The array adjustment of init_var_dict: from each head `i`, every
        following slot without code becomes a copy of the head numbered by its
        distance from it; the head of a run longer than one slot gets 0. */
    method Compact()
      modifies vars
      ensures vars[..] == Compacted(old(vars[..]))
    {
      ghost var s := vars[..];
      var n := vars.Length;
      var i := 0;
      while i < n
        invariant 0 <= i <= n
        invariant i < n ==> i == 0 || s[i].code.Some?
        invariant forall k :: 0 <= k < i ==> vars[k] == Compacted(s)[k]
        invariant forall k :: i <= k < n ==> vars[k] == s[k]
      {
        var j := i + 1;
        while j < n && vars[j].code.None?
          invariant i < j <= n
          invariant forall k :: 0 <= k < i ==> vars[k] == Compacted(s)[k]
          invariant vars[i] == s[i]
          invariant forall k :: i < k < j ==> s[k].code.None? && vars[k] == s[i].(indiceTab := k - i)
          invariant forall k :: j <= k < n ==> vars[k] == s[k]
        {
          vars[j] := vars[i].(indiceTab := j - i);
          j := j + 1;
        }
        if j - i > 1 {
          vars[i] := vars[i].(indiceTab := 0);
        }
        forall k | i <= k < j
          ensures vars[k] == Compacted(s)[k]
        {
          if j - i > 1 {
            CompactRun(s, i, j, if k == i then i + 1 else k);
          } else {
            CompactKeepsHeads(s, i);
          }
        }
        i := j;
      }
      assert vars[..] == Compacted(s);
    }

    /** The build steps of init_var_dict in source order: the input passes,
        the debug pass, the restituée pass and the compaction; the index is
        left unsorted. */
    method BuildSlots() returns (out: Outcome<Fault>)
      requires Valid()
      modifies vars, index, index.data
      ensures Valid() && (index.data == old(index.data) || fresh(index.data))
      ensures Build(conf, tables, old(State())) == if out.Pass? then Ok(State()) else Err(out.error)
    {
      out := LoadAllInputs();
      if out.Fail? { return; }
      out := LoadDebug();
      if out.Fail? { return; }
      ghost var s7 := State();
      out := LoadRestituee();
      if out.Fail? { return; }
      Compact();
    }

    /** init_var_dict: runs once. The first call performs every pass in order,
        compacts the arrays and sorts the index; any later call changes nothing. */
    method InitVarDict() returns (out: Outcome<Fault>)
      requires Valid()
      modifies this, vars, index, index.data
      ensures Valid() && loaded
      ensures index.data == old(index.data) || fresh(index.data)
      ensures old(loaded) ==> out == Pass && State() == old(State())
      ensures !old(loaded) ==> (out.Pass? <==> Build(conf, tables, old(State())).Ok?)
      ensures !old(loaded) && out.Fail? ==> Build(conf, tables, old(State())) == Err(out.error)
      ensures !old(loaded) && out.Pass? ==>
                vars[..] == Build(conf, tables, old(State())).value.vars
                && Sorted(index.Contents())
                && multiset(index.Contents()) == multiset(Build(conf, tables, old(State())).value.entries)
    {
      if loaded {
        return Pass;
      }
      loaded := true;
      out := BuildSlots();
      if out.Fail? { return; }
      ghost var entries := index.Contents();
      index.Sort();
      SlotsBelowPerm(entries, index.Contents(), vars.Length);
    }

    /** The slot scan of ml_charge_vars: every slot, last slot first. */
    method ScanSlots() returns (r: Result<seq<VarInfo>, Fault>)
      ensures r == Catalogue(vars[..], vars.Length)
    {
      var acc := [];
      var i := 0;
      while i < vars.Length
        invariant i <= vars.Length
        invariant Catalogue(vars[..], i) == Ok(acc)
      {
        if vars[i].code.None? {
          CatalogueOk(vars[..], i);
          CatalogueOk(vars[..], vars.Length);
          CatalogueFault(vars[..], vars.Length);
          return Err(UndefinedCode(i));
        }
        acc := [Info(vars[i])] + acc;
        i := i + 1;
      }
      assert vars[..] == vars[..vars.Length];
      return Ok(acc);
    }

    /** ml_charge_vars: builds the registry if needed, then reports every slot. */
    method ChargeVars() returns (r: Result<seq<VarInfo>, Fault>)
      requires Valid()
      modifies this, vars, index, index.data
      ensures Valid() && loaded
      ensures index.data == old(index.data) || fresh(index.data)
      ensures old(loaded) ==> State() == old(State())
      ensures !old(loaded) && Build(conf, tables, old(State())).Ok? ==>
                vars[..] == Build(conf, tables, old(State())).value.vars
                && Sorted(index.Contents())
                && multiset(index.Contents()) == multiset(Build(conf, tables, old(State())).value.entries)
      ensures old(loaded) ==> r == Catalogue(vars[..], vars.Length)
      ensures !old(loaded) ==> r == match Build(conf, tables, old(State()))
                                   case Err(e) => Err(e)
                                   case Ok(st) => Catalogue(st.vars, |st.vars|)
    {
      var out := InitVarDict();
      if out.Fail? {
        return Err(out.error);
      }
      r := ScanSlots();
    }

    /** cherche_var on the registry's index. */
    method Lookup(code: Code) returns (r: Option<nat>)
      requires Valid()
      ensures r == Search(index.Contents(), code, 0, |index.Contents()|)
      ensures r.Some? ==> r.value < vars.Length && Entry(code, r.value) in index.Contents()
    {
      r := index.Find(code);
      if r.Some? {
        assert Entry(code, r.value) in index.Contents();
      }
    }
  }
}
