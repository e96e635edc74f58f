/** The tree of logging categories: names, inherited priorities, and which appenders an event reaches. */
module CategoryTree {
  import opened Wrappers

  const INFO := 600
  const NOTSET := 800
  const INVALID_ARGUMENT := -1

  type Appender = nat

  /** `find_last_of('.')`, and the part of the name before it. */
  function ParentName(name: string): (p: string)
    ensures name != "" ==> |p| < |name|
  {
    if name == "" then ""
    else if name[|name| - 1] == '.' then name[..|name| - 1]
    else ParentName(name[..|name| - 1])
  }

  /** The parent's name is what comes before the last dot, or the root's if there is no dot. */
  lemma {:induction false} ParentNameIs(name: string)
    requires name != ""
    ensures '.' !in name ==> ParentName(name) == ""
    ensures '.' in name ==>
      ParentName(name) < name && name[|ParentName(name)|] == '.' && '.' !in name[|ParentName(name)| + 1..]
  {
    var front := name[..|name| - 1];
    assert name == front + [name[|name| - 1]];
    if name[|name| - 1] != '.' && front != "" {
      ParentNameIs(front);
      if '.' in name {
        var p := |ParentName(front)|;
        assert name[p + 1..] == front[p + 1..] + [name[|name| - 1]];
      }
    }
  }

  function Ancestors(name: string): set<string>
    decreases |name|
  {
    {name} + if name == "" then {} else Ancestors(ParentName(name))
  }

  class Category {
    const name: string
    const parent: Category?
    var priority: int
    var isAdditive: bool
    var appenders: set<Appender>
    var ownsAppender: map<Appender, bool>

    constructor (name: string, parent: Category?, priority: int)
      ensures this.name == name && this.parent == parent && this.priority == priority
      ensures isAdditive && appenders == {} && ownsAppender == map[]
    {
      this.name, this.parent, this.priority := name, parent, priority;
      isAdditive, appenders, ownsAppender := true, {}, map[];
    }

    /** The root, which has no parent to inherit from, must keep a priority of its own. */
    method SetPriority(priority: int) returns (o: Outcome)
      modifies this`priority
      ensures o.Fail? <==> parent == null && priority >= NOTSET
      ensures this.priority == if o.Pass? then priority else old(this.priority)
    {
      if priority < NOTSET || parent != null {
        this.priority := priority;
        return Pass;
      }
      return Fail(INVALID_ARGUMENT);
    }

    method SetAdditivity(additivity: bool)
      modifies this`isAdditive
      ensures isAdditive == additivity
    {
      isAdditive := additivity;
    }

    /** Adding an appender again changes nothing, not even who owns it. */
    method AddAppender(appender: Appender, owned: bool)
      modifies this`appenders, this`ownsAppender
      ensures appenders == old(appenders) + {appender}
      ensures ownsAppender == if appender in old(appenders) then old(ownsAppender) else old(ownsAppender)[appender := owned]
    {
      if appender !in appenders {
        appenders := appenders + {appender};
        ownsAppender := ownsAppender[appender := owned];
      }
    }

    /** An appender is deleted when it is removed from the category that owns it. */
    method RemoveAppender(appender: Appender) returns (deleted: bool)
      modifies this`appenders, this`ownsAppender
      ensures appenders == old(appenders) - {appender}
      ensures deleted <==> appender in old(appenders) && appender in old(ownsAppender) && old(ownsAppender)[appender]
      ensures ownsAppender == if deleted then old(ownsAppender) - {appender} else old(ownsAppender)
    {
      deleted := false;
      if appender in appenders {
        if appender in ownsAppender && ownsAppender[appender] {
          ownsAppender := ownsAppender - {appender};
          deleted := true;
        }
        appenders := appenders - {appender};
      }
    }
  }

  class HierarchyMaintainer {
    var categories: map<string, Category>

    /** The category hangs below the category of its parent's name. */
    ghost predicate Below(n: string)
      requires n in categories
      reads this, categories.Values
    {
      n != "" ==> ParentName(n) in categories && categories[n].parent == categories[ParentName(n)]
    }

    /** Closed under parents, every category below its parent, and the root with a priority of its own. */
    ghost predicate Valid()
      reads this, categories.Values
    {
      && (forall n :: n in categories ==> categories[n].name == n)
      && (forall n {:trigger Below(n)} :: n in categories ==> Below(n))
      && ("" in categories ==> categories[""].parent == null && categories[""].priority < NOTSET)
    }

    ghost predicate Has(c: Category)
      reads this
    {
      c.name in categories && categories[c.name] == c
    }

    constructor ()
      ensures Valid() && categories == map[]
    {
      categories := map[];
    }

    /** `_getInstance`: the category of that name, made together with whatever ancestors are missing. */
    method GetInstance(name: string) returns (c: Category)
      requires Valid()
      modifies this
      ensures Valid() && Has(c) && c.name == name
      ensures categories.Keys == old(categories.Keys) + Ancestors(name)
      ensures forall n :: n in old(categories) ==> categories[n] == old(categories)[n]
      ensures forall n :: n in categories && n !in old(categories) ==>
        && fresh(categories[n]) && categories[n].isAdditive && categories[n].appenders == {}
        && categories[n].priority == if n == "" then INFO else NOTSET
      decreases |name|
    {
      hide ParentName;
      hide Valid;
      if name in categories {
        AncestorsPresent(name);
        return categories[name];
      }
      if name == "" {
        c := new Category(name, null, INFO);
      } else {
        var parent := GetInstance(ParentName(name));
        c := new Category(name, parent, NOTSET);
      }
      NotAncestor(name);
      Add(c);
    }

    /** `_categoryMap[name] = result`. */
    method Add(c: Category)
      requires Valid() && c.name !in categories
      requires if c.name == "" then c.parent == null && c.priority < NOTSET
               else ParentName(c.name) in categories && c.parent == categories[ParentName(c.name)]
      modifies this
      ensures Valid() && categories == old(categories)[c.name := c]
    {
      hide ParentName;
      ghost var was := categories;
      categories := categories[c.name := c];
      forall n | n in categories
        ensures Below(n)
      {
        if n != c.name {
          assert old(Below(n));
          assert n in was;
        }
      }
    }

    lemma {:induction false} AncestorsPresent(name: string)
      requires Valid() && name in categories
      ensures Ancestors(name) <= categories.Keys && "" in categories && categories[name].name == name
      decreases |name|
    {
      if name != "" {
        assert Below(name);
        AncestorsPresent(ParentName(name));
      }
    }

    /** The nearest category, going up from `name`, that has a priority of its own. */
    ghost function Nearest(name: string): (r: string)
      requires Valid() && name in categories
      reads this, categories.Values
      ensures r in categories && r in Ancestors(name) && categories[r].priority < NOTSET
      decreases |name|
    {
      assert Below(name);
      if categories[name].priority < NOTSET then name else Nearest(ParentName(name))
    }

    /** Every category on the way up to the nearest one has none. */
    lemma {:induction false} NearestIsFirst(name: string, a: string)
      requires Valid() && name in categories && a in Ancestors(name)
      ensures a in categories
      ensures |a| > |Nearest(name)| ==> categories[a].priority >= NOTSET
      ensures |a| <= |name|
      decreases |name|
    {
      AncestorsPresent(name);
      if a != name && categories[name].priority >= NOTSET {
        NearestIsFirst(ParentName(name), a);
      } else if a != name {
        Shorter(ParentName(name), a);
      }
    }

    lemma ParentIsHere(d: Category)
      requires Valid() && Has(d)
      ensures d.name == "" ==> d.parent == null && d.priority < NOTSET
      ensures d.name != "" ==> d.parent != null && Has(d.parent) && d.parent.name == ParentName(d.name)
    {
      hide ParentName;
      assert Below(d.name);
    }

    /** The loop up the parent pointers; it never meets a null pointer. */
    method GetChainedPriority(c: Category) returns (p: int)
      requires Valid() && Has(c)
      ensures p == categories[Nearest(c.name)].priority
    {
      hide ParentName;
      hide Ancestors;
      var d: Category := c;
      while d.priority >= NOTSET
        invariant Has(d) && Nearest(d.name) == Nearest(c.name)
        decreases |d.name|
      {
        ParentIsHere(d);
        d := d.parent;
      }
      return d.priority;
    }

    method IsPriorityEnabled(c: Category, priority: int) returns (enabled: bool)
      requires Valid() && Has(c)
      ensures enabled <==> categories[Nearest(c.name)].priority >= priority
    {
      var chained := GetChainedPriority(c);
      return chained >= priority;
    }

    /** `Category::setPriority` keeps the tree valid. */
    method SetPriority(c: Category, priority: int) returns (o: Outcome)
      requires Valid() && Has(c)
      modifies c`priority
      ensures Valid() && (o.Fail? <==> c.name == "" && priority >= NOTSET)
      ensures c.priority == if o.Pass? then priority else old(c.priority)
    {
      assert Below(c.name);
      o := c.SetPriority(priority);
      assert forall n :: n in categories ==> old(Below(n)) && Below(n);
    }

    // ----- Where events go -----

    /** The categories an event at `name` visits: up to and including the first that is not additive, or the root. */
    ghost function Line(name: string): (r: seq<string>)
      requires Valid() && name in categories
      reads this, categories.Values
      ensures r != [] && r[0] == name
      ensures forall i :: 0 <= i < |r| ==> r[i] in categories
      ensures forall i :: 0 <= i < |r| - 1 ==> r[i] != "" && categories[r[i]].isAdditive && r[i + 1] == ParentName(r[i])
      ensures r[|r| - 1] == "" || !categories[r[|r| - 1]].isAdditive
      decreases |name|
    {
      assert Below(name);
      if categories[name].isAdditive && name != "" then
        var rest := Line(ParentName(name));
        assert forall i :: 0 < i < |rest| + 1 ==> ([name] + rest)[i] == rest[i - 1];
        [name] + rest
      else [name]
    }

    /** `Category::setAdditivity`: off, it ends the line at `c`; on, it leads it on through the line of the parent. */
    method SetAdditivity(c: Category, additivity: bool)
      requires Valid() && Has(c)
      modifies c`isAdditive
      ensures Valid() && c.isAdditive == additivity && (c.name != "" ==> ParentName(c.name) in categories)
      ensures Line(c.name) == if additivity && c.name != "" then [c.name] + Line(ParentName(c.name)) else [c.name]
    {
      assert Below(c.name);
      c.SetAdditivity(additivity);
      assert forall n :: n in categories ==> old(Below(n)) && Below(n);
    }

    /** How many of the categories have the appender. */
    ghost function Holders(line: seq<string>, a: Appender): nat
      requires forall i :: 0 <= i < |line| ==> line[i] in categories
      reads this, categories.Values
    {
      if line == [] then 0 else (if a in categories[line[0]].appenders then 1 else 0) + Holders(line[1..], a)
    }

    lemma {:induction false} HoldersAre(line: seq<string>, a: Appender)
      requires forall i :: 0 <= i < |line| ==> line[i] in categories
      requires Descending(line)
      ensures Holders(line, a) == |set n | n in line && a in categories[n].appenders|
    {
      var all := set n | n in line && a in categories[n].appenders;
      if line == [] {
        assert all == {};
      } else {
        HoldersAre(line[1..], a);
        var rest := set n | n in line[1..] && a in categories[n].appenders;
        assert line[0] !in line[1..];
        assert all == if a in categories[line[0]].appenders then {line[0]} + rest else rest;
      }
    }

    /** No category is on the line twice. */
    lemma {:induction false} LineDescends(name: string)
      requires Valid() && name in categories
      ensures Descending(Line(name))
      decreases |name|
    {
      assert Below(name);
      hide ParentName;
      hide Descending;
      if !categories[name].isAdditive || name == "" {
        DescendingOne(name);
      } else {
        LineDescends(ParentName(name));
        ParentShorter(name);
        DescendingCons(name, Line(ParentName(name)));
      }
    }

    lemma HoldersOnLine(name: string)
      requires Valid() && name in categories
      ensures forall a :: Holders(Line(name), a) == |set n | n in Line(name) && a in categories[n].appenders|
    {
      LineDescends(name);
      hide Line;
      hide Holders;
      forall a
        ensures Holders(Line(name), a) == |set n | n in Line(name) && a in categories[n].appenders|
      {
        HoldersAre(Line(name), a);
      }
    }

    /** Each appender is called once for every category on the line that has it, and no other appender is called. */
    method CallAppenders(c: Category) returns (called: multiset<Appender>)
      requires Valid() && Has(c)
      ensures forall a :: called[a] == Holders(Line(c.name), a) == |set n | n in Line(c.name) && a in categories[n].appenders|
      decreases |c.name|
    {
      hide ParentName;
      ParentIsHere(c);
      called := multiset(c.appenders);
      if c.isAdditive && c.parent != null {
        var above := CallAppenders(c.parent);
        assert Line(c.name)[1..] == Line(ParentName(c.name));
        called := called + above;
      }
      HoldersOnLine(c.name);
    }
  }

  ghost predicate Descending(names: seq<string>) {
    forall i, j :: 0 <= i < j < |names| ==> |names[j]| < |names[i]|
  }

  lemma DescendingOne(name: string)
    ensures Descending([name])
  {
  }

  lemma DescendingCons(name: string, rest: seq<string>)
    requires rest != [] && Descending(rest) && |rest[0]| < |name|
    ensures Descending([name] + rest)
  {
    var r := [name] + rest;
    assert forall i :: 0 < i < |r| ==> r[i] == rest[i - 1];
  }

  lemma ParentShorter(name: string)
    ensures name != "" ==> |ParentName(name)| < |name|
  {
  }

  lemma {:induction false} Shorter(name: string, a: string)
    requires a in Ancestors(name)
    ensures |a| <= |name|
    decreases |name|
  {
    if a != name {
      Shorter(ParentName(name), a);
    }
  }

  lemma NotAncestor(name: string)
    ensures name != "" ==> name !in Ancestors(ParentName(name))
  {
    if name != "" && name in Ancestors(ParentName(name)) {
      Shorter(ParentName(name), name);
    }
  }
}
