/**
 * The bean registry of core/bean_parser.go: a table from struct name to the
 * struct's metadata in which the first registration of a name wins, and the
 * registration item each entry turns into in the generated init file.
 */
module BeanParsing {
  import opened Meta

  /** One `ParseBean`: insert the struct under its name unless the name is already taken. */
  function BeanStep(beans: map<string, StructMeta>, meta: StructMeta): (r: map<string, StructMeta>)
    ensures r.Keys == beans.Keys + {meta.name}
    ensures forall n :: n in beans ==> r[n] == beans[n]
    ensures meta.name !in beans ==> r[meta.name] == meta
  {
    if meta.name in beans then beans else beans[meta.name := meta]
  }

  /** Every entry is filed under its own struct name. */
  predicate KeyedByName(beans: map<string, StructMeta>)
  {
    forall n :: n in beans ==> beans[n].name == n
  }

  lemma BeanStepKeyedByName(beans: map<string, StructMeta>, meta: StructMeta)
    requires KeyedByName(beans)
    ensures KeyedByName(BeanStep(beans, meta))
  {
  }

  /** Registering the same struct twice is registering it once. */
  lemma BeanStepIdempotent(beans: map<string, StructMeta>, meta: StructMeta)
    ensures BeanStep(BeanStep(beans, meta), meta) == BeanStep(beans, meta)
  {
  }

  /** A later struct of the same name changes nothing: the first registration wins, silently. */
  lemma BeanStepFirstWins(beans: map<string, StructMeta>, first: StructMeta, later: StructMeta)
    requires first.name == later.name
    ensures BeanStep(BeanStep(beans, first), later) == BeanStep(beans, first)
    ensures first.name !in beans ==> BeanStep(BeanStep(beans, first), later)[first.name] == first
  {
  }

  /** The table grows by one entry for a new name and by none for a known one. */
  lemma BeanStepSize(beans: map<string, StructMeta>, meta: StructMeta)
    ensures |BeanStep(beans, meta)| == if meta.name in beans then |beans| else |beans| + 1
  {
    if meta.name !in beans {
      assert BeanStep(beans, meta).Keys == beans.Keys + {meta.name};
    }
  }

  /** `BeanParser`: the bean table, filled by `ParseBean`. */
  class BeanParser {
    var beanCache: map<string, StructMeta>

    predicate Valid()
      reads this
    {
      KeyedByName(beanCache)
    }

    /** `NewBeanParser`: an empty table. */
    constructor()
      ensures Valid() && beanCache == map[]
    {
      beanCache := map[];
    }

    /** `ParseBean`: files the struct under its name when the name is new. */
    method ParseBean(meta: StructMeta)
      requires Valid()
      modifies this
      ensures Valid()
      ensures beanCache == BeanStep(old(beanCache), meta)
    {
      if meta.name !in beanCache {
        beanCache := beanCache[meta.name := meta];
      }
      BeanStepKeyedByName(old(beanCache), meta);
    }
  }

  /**
   * One registration item of the generated init function: `&Name{}` for a
   * struct of the generated file's own package, `&pkg.Name{}` with the
   * package imported from its path otherwise.
   */
  datatype Registration = Local(name: string) | Qualified(ipath: string, pkg: string, name: string)

  function RegistrationItem(meta: StructMeta): (r: Registration)
    ensures r.Local? <==> meta.ipath == ""
    ensures r.name == meta.name
    ensures r.Qualified? ==> r.ipath == meta.ipath && r.pkg == meta.pkg
  {
    if meta.ipath == "" then Local(meta.name) else Qualified(meta.ipath, meta.pkg, meta.name)
  }

  /** The items in the order the table is walked (Go leaves that order unspecified). */
  function RegistrationItems(beans: map<string, StructMeta>, order: seq<string>): seq<Registration>
    requires forall k :: 0 <= k < |order| ==> order[k] in beans
  {
    if |order| == 0 then []
    else RegistrationItems(beans, order[..|order| - 1]) + [RegistrationItem(beans[order[|order| - 1]])]
  }

  predicate Distinct(order: seq<string>)
  {
    forall i, j :: 0 <= i < j < |order| ==> order[i] != order[j]
  }

  /** The names a walk visits. */
  function Visited(order: seq<string>): set<string>
  {
    set k | 0 <= k < |order| :: order[k]
  }

  /** The names a walk visits are those of all but its last step, and the last. */
  lemma VisitedSnoc(order: seq<string>)
    requires |order| > 0
    ensures Visited(order) == Visited(order[..|order| - 1]) + {order[|order| - 1]}
  {
    var p := order[..|order| - 1];
    forall y | y in Visited(order) ensures y in Visited(p) + {order[|order| - 1]} {
      var k :| 0 <= k < |order| && order[k] == y;
      if k < |p| { assert p[k] == y; }
    }
    forall y | y in Visited(p) ensures y in Visited(order) {
      var k :| 0 <= k < |p| && p[k] == y;
      assert order[k] == y;
    }
  }

  /** A duplicate-free walk has as many steps as it visits names. */
  lemma {:induction false} DistinctCount(order: seq<string>)
    requires Distinct(order)
    ensures |Visited(order)| == |order|
  {
    if |order| > 0 {
      var p := order[..|order| - 1];
      var x := order[|order| - 1];
      assert Distinct(p) by {
        forall i, j | 0 <= i < j < |p| ensures p[i] != p[j] { assert p[i] == order[i] && p[j] == order[j]; }
      }
      DistinctCount(p);
      VisitedSnoc(order);
      assert x !in Visited(p) by {
        forall k | 0 <= k < |p| ensures p[k] != x { assert p[k] == order[k]; }
      }
    }
  }

  /**
   * Walking every entry of a table keyed by name once yields one item per
   * entry, the k-th naming the k-th struct visited.
   */
  lemma {:induction false} RegistrationOnePerEntry(beans: map<string, StructMeta>, order: seq<string>)
    requires KeyedByName(beans)
    requires Distinct(order) && Visited(order) == beans.Keys
    ensures |RegistrationItems(beans, order)| == |order| == |beans|
    ensures forall k :: 0 <= k < |order| ==> RegistrationItems(beans, order)[k].name == order[k]
  {
    DistinctCount(order);
    assert |beans| == |beans.Keys|;
    ItemsNamed(beans, order);
  }

  lemma {:induction false} ItemsNamed(beans: map<string, StructMeta>, order: seq<string>)
    requires KeyedByName(beans)
    requires forall k :: 0 <= k < |order| ==> order[k] in beans
    ensures |RegistrationItems(beans, order)| == |order|
    ensures forall k :: 0 <= k < |order| ==> RegistrationItems(beans, order)[k].name == order[k]
  {
    if |order| > 0 {
      var p := order[..|order| - 1];
      ItemsNamed(beans, p);
      var items := RegistrationItems(beans, order);
      forall k | 0 <= k < |order| ensures items[k].name == order[k] {
        if k < |p| {
          assert items[k] == RegistrationItems(beans, p)[k];
          assert p[k] == order[k];
        }
      }
    }
  }
}
