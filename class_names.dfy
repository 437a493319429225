/**
 * The class-name builder: the base classes, followed by every flag key
 * whose value is truthy in entry order, joined by single spaces. The
 * selected keys are pushed onto the caller's own list of base classes.
 */
module ClassNames {
  import opened Wrappers

  /** A flag's value: `undefined` (None), false or true. */
  type Flag = Option<bool>

  predicate Truthy(v: Flag)
  {
    v == Some(true)
  }

  /** The keys of the truthy entries, in entry order. */
  function TruthyKeys(entries: seq<(string, Flag)>): (r: seq<string>)
    ensures |r| <= |entries|
  {
    if entries == [] then []
    else
      var keys := TruthyKeys(entries[..|entries| - 1]);
      var (key, value) := entries[|entries| - 1];
      if Truthy(value) then keys + [key] else keys
  }

  /** The parts separated by single spaces; the empty list gives the empty string. */
  function Join(parts: seq<string>): string
  {
    if parts == [] then ""
    else if |parts| == 1 then parts[0]
    else Join(parts[..|parts| - 1]) + " " + parts[|parts| - 1]
  }

  /** The class attribute built from the base classes and the flags. */
  function ComposedClassName(cls: seq<string>, clsComputable: seq<(string, Flag)>): string
  {
    Join(cls + TruthyKeys(clsComputable))
  }

  // ---------------------------------------------------------------------
  // Properties

  /** A key is selected exactly when one of its entries is truthy; false and undefined never select. */
  lemma {:induction false} TruthyKeysMembers(entries: seq<(string, Flag)>, key: string)
    ensures key in TruthyKeys(entries) <==>
      exists j :: 0 <= j < |entries| && entries[j].0 == key && Truthy(entries[j].1)
  {
    if entries != [] {
      var init := entries[..|entries| - 1];
      TruthyKeysMembers(init, key);
      assert forall j :: 0 <= j < |init| ==> init[j] == entries[j];
      if j :| 0 <= j < |entries| && entries[j].0 == key && Truthy(entries[j].1) {
        if j < |init| {
          assert init[j] == entries[j];
        }
      }
    }
  }

  /** Selection keeps entry order: the keys selected from two runs of entries follow one another. */
  lemma {:induction false} TruthyKeysAppend(a: seq<(string, Flag)>, b: seq<(string, Flag)>)
    ensures TruthyKeys(a + b) == TruthyKeys(a) + TruthyKeys(b)
    decreases |b|
  {
    if b != [] {
      var init := b[..|b| - 1];
      assert (a + b)[..|a + b| - 1] == a + init;
      assert (a + b)[|a + b| - 1] == b[|b| - 1];
      TruthyKeysAppend(a, init);
    } else {
      assert a + b == a;
    }
  }

  /** Joining two non-empty lists puts one space between their joins. */
  lemma {:induction false} JoinAppend(a: seq<string>, b: seq<string>)
    requires a != [] && b != []
    ensures Join(a + b) == Join(a) + " " + Join(b)
    decreases |b|
  {
    if |b| == 1 {
      assert (a + b)[..|a + b| - 1] == a;
    } else {
      var init := b[..|b| - 1];
      assert (a + b)[..|a + b| - 1] == a + init;
      assert (a + b)[|a + b| - 1] == b[|b| - 1];
      JoinAppend(a, init);
    }
  }

  /**
   * The base classes come first, in their order, and the selected keys
   * follow after one space; with no truthy flag the result is the base
   * classes alone, the empty string for none.
   */
  lemma BaseClassesFirst(cls: seq<string>, clsComputable: seq<(string, Flag)>)
    ensures TruthyKeys(clsComputable) == [] ==> ComposedClassName(cls, clsComputable) == Join(cls)
    ensures cls == [] && TruthyKeys(clsComputable) == [] ==> ComposedClassName(cls, clsComputable) == ""
    ensures cls != [] && TruthyKeys(clsComputable) != [] ==>
      ComposedClassName(cls, clsComputable) == Join(cls) + " " + Join(TruthyKeys(clsComputable))
  {
    if TruthyKeys(clsComputable) == [] {
      assert cls + [] == cls;
    } else if cls != [] {
      JoinAppend(cls, TruthyKeys(clsComputable));
    }
  }

  // ---------------------------------------------------------------------
  // The builder as the source runs it

  /** A list of class names the caller owns and the builder extends. */
  class ClassList {
    var items: seq<string>

    constructor (items: seq<string>)
      ensures this.items == items
    {
      this.items := items;
    }
  }

  /** Pushes each truthy key onto `cls`, then joins the list. */
  method ComposeCls(cls: ClassList, clsComputable: seq<(string, Flag)>) returns (className: string)
    modifies cls
    ensures cls.items == old(cls.items) + TruthyKeys(clsComputable)
    ensures className == Join(cls.items)
    ensures className == ComposedClassName(old(cls.items), clsComputable)
  {
    for j := 0 to |clsComputable|
      invariant cls.items == old(cls.items) + TruthyKeys(clsComputable[..j])
    {
      assert clsComputable[..j + 1][..j] == clsComputable[..j];
      var (key, value) := clsComputable[j];
      if value == Some(true) {
        cls.items := cls.items + [key];
      }
    }
    assert clsComputable[..|clsComputable|] == clsComputable;
    className := Join(cls.items);
  }
}
