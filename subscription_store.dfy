/**
 * The stored subscription record, its comma-joined category labels, and the
 * subscription table keyed by `(user_id, id)`.
 */
module SubscriptionStore {
  import opened Wrappers
  import opened Text
  import opened Sequences
  import opened Errors

  /** One row of the Subscriptions table. */
  datatype Subscription = Subscription(
    userId: string,
    id: string,
    url: string,
    title: string,
    description: string,
    feedUrl: string,
    joinedCategories: string,
    lastFetchMs: int)

  /** The labels of a list that are not empty, in order. */
  function NonEmptyLabels(labels: seq<string>): (r: seq<string>)
    ensures |r| <= |labels|
    ensures forall i :: 0 <= i < |r| ==> r[i] != "" && r[i] in labels
    ensures forall i :: 0 <= i < |labels| && labels[i] != "" ==> labels[i] in r
  {
    if labels == [] then []
    else
      var init := NonEmptyLabels(labels[..|labels| - 1]);
      var last := labels[|labels| - 1];
      assert forall i :: 0 <= i < |labels| - 1 ==> labels[i] == labels[..|labels| - 1][i];
      if last == "" then init else init + [last]
  }

  lemma {:induction false} NonEmptyLabelsOfNonEmpty(labels: seq<string>)
    requires forall i :: 0 <= i < |labels| ==> labels[i] != ""
    ensures NonEmptyLabels(labels) == labels
  {
    if labels != [] {
      NonEmptyLabelsOfNonEmpty(labels[..|labels| - 1]);
      assert labels[..|labels| - 1] + [labels[|labels| - 1]] == labels;
    }
  }

  /** One more label of a list: the filter grows by it exactly when it is non-empty. */
  lemma NonEmptyLabelsStep(labels: seq<string>, i: nat)
    requires i < |labels|
    ensures NonEmptyLabels(labels[..i + 1]) == NonEmptyLabels(labels[..i]) + (if labels[i] == "" then [] else [labels[i]])
  {
    assert labels[..i + 1][..i] == labels[..i];
  }

  /** Filtering keeps distinct labels distinct. */
  lemma {:induction false} NonEmptyLabelsNoDuplicates(labels: seq<string>)
    requires NoDuplicates(labels)
    ensures NoDuplicates(NonEmptyLabels(labels))
  {
    if labels != [] {
      var init := labels[..|labels| - 1];
      assert NoDuplicates(init);
      NonEmptyLabelsNoDuplicates(init);
      assert labels[|labels| - 1] !in init;
    }
  }

  /** The labels stored in a comma-joined string (`Subscription::categories`). */
  function LabelsOf(joined: string): (r: seq<string>)
    ensures forall l :: l in r ==> l != "" && ',' !in l
    ensures joined == "" ==> r == []
  {
    if joined == "" then []
    else
      SplitPartsLackSeparator(joined, ',');
      NonEmptyLabels(Split(joined, ','))
  }

  /**
   * `Subscription::categories`: the non-empty pieces of the joined string;
   * the empty string's own branch gives the same as the general one.
   */
  function Categories(s: Subscription): (r: seq<string>)
    ensures r == NonEmptyLabels(Split(s.joinedCategories, ','))
  {
    LabelsOfIsFilteredSplit(s.joinedCategories);
    LabelsOf(s.joinedCategories)
  }

  /** The empty-string branch agrees with the general one: both give no labels. */
  lemma LabelsOfIsFilteredSplit(joined: string)
    ensures LabelsOf(joined) == NonEmptyLabels(Split(joined, ','))
  {
    if joined == "" {
      assert Split(joined, ',') == [""];
      assert NonEmptyLabels([""]) == NonEmptyLabels([]) + [];
    }
  }

  /** Labels that are non-empty and comma-free survive a join and a `categories()` call. */
  lemma LabelsOfJoin(labels: seq<string>)
    requires forall l :: l in labels ==> l != "" && ',' !in l
    ensures LabelsOf(Join(labels, ',')) == labels
  {
    if labels != [] {
      SplitJoin(labels, ',');
      assert forall i :: 0 <= i < |labels| ==> labels[i] in labels;
      NonEmptyLabelsOfNonEmpty(labels);
      assert labels[0] != "";
      assert Join(labels, ',') != "" by {
        if |labels| > 1 {
          assert |Join(labels, ',')| >= |labels[0]| + 1;
        }
      }
    }
  }

  /**
   * `Subscription::add_categories`: the stored pieces, then the non-empty
   * labels to add, with runs of equal neighbours collapsed, joined again.
   */
  method AddCategories(s: Subscription, toAdd: seq<string>) returns (r: Subscription)
    ensures r == s.(joinedCategories := Join(Dedup(Split(s.joinedCategories, ',') + NonEmptyLabels(toAdd)), ','))
  {
    var categories := PushNonEmpty(Split(s.joinedCategories, ','), toAdd);
    categories := Dedup(categories);
    r := s.(joinedCategories := Join(categories, ','));
  }

  /** The loop of `add_categories`: push every non-empty label of `toAdd` onto `pieces`. */
  method PushNonEmpty(pieces: seq<string>, toAdd: seq<string>) returns (categories: seq<string>)
    ensures categories == pieces + NonEmptyLabels(toAdd)
    ensures |pieces| <= |categories| <= |pieces| + |toAdd|
  {
    categories := pieces;
    for i := 0 to |toAdd|
      invariant categories == pieces + NonEmptyLabels(toAdd[..i])
    {
      NonEmptyLabelsStep(toAdd, i);
      if toAdd[i] != "" {
        categories := categories + [toAdd[i]];
      }
    }
    assert toAdd[..|toAdd|] == toAdd;
  }

  /**
   * `add_categories` as its labels are meant to behave: every label stored
   * once. The pushed list keeps the first occurrence of each piece instead of
   * collapsing only runs of equal neighbours.
   */
  method AddCategoriesUnique(s: Subscription, toAdd: seq<string>) returns (r: Subscription)
    requires forall l :: l in toAdd ==> ',' !in l
    ensures r == s.(joinedCategories := r.joinedCategories)
    ensures NoDuplicates(Categories(r))
    ensures forall l :: l in Categories(r) <==> l in Categories(s) || l in NonEmptyLabels(toAdd)
  {
    var pieces := Split(s.joinedCategories, ',');
    var categories := PushNonEmpty(pieces, toAdd);
    var labels := Distinct(categories);
    r := s.(joinedCategories := Join(labels, ','));
    UniqueLabels(s.joinedCategories, toAdd, labels);
  }

  /** The label facts behind `AddCategoriesUnique`. */
  lemma UniqueLabels(joined: string, toAdd: seq<string>, labels: seq<string>)
    requires forall l :: l in toAdd ==> ',' !in l
    requires labels == Distinct(Split(joined, ',') + NonEmptyLabels(toAdd))
    ensures NoDuplicates(LabelsOf(Join(labels, ',')))
    ensures forall l :: l in LabelsOf(Join(labels, ',')) <==> l in LabelsOf(joined) || l in NonEmptyLabels(toAdd)
  {
    var all := Split(joined, ',') + NonEmptyLabels(toAdd);
    SplitPartsLackSeparator(joined, ',');
    NonEmptyLabelsMembership(toAdd);
    DistinctMembership(all);
    LabelsOfIsFilteredSplit(joined);
    NonEmptyLabelsMembership(Split(joined, ','));
    LabelsOfJoinDistinct(labels);
  }

  /**
   * After `add_categories` with comma-free labels, the stored pieces are the
   * old pieces followed by the new non-empty labels, with no two equal
   * neighbours, and the label set is the old set plus the added labels.
   */
  lemma AddCategoriesLabels(s: Subscription, toAdd: seq<string>, r: Subscription)
    requires forall l :: l in toAdd ==> ',' !in l
    requires r == s.(joinedCategories := Join(Dedup(Split(s.joinedCategories, ',') + NonEmptyLabels(toAdd)), ','))
    ensures Split(r.joinedCategories, ',') == Dedup(Split(s.joinedCategories, ',') + NonEmptyLabels(toAdd))
    ensures NoAdjacentDuplicates(Split(r.joinedCategories, ','))
    ensures forall l :: l in Categories(r) <==> l in Categories(s) || l in NonEmptyLabels(toAdd)
  {
    var old_ := Split(s.joinedCategories, ',');
    var added := NonEmptyLabels(toAdd);
    var all := old_ + added;
    var d := Dedup(all);
    SplitPartsLackSeparator(s.joinedCategories, ',');
    assert forall l :: l in all ==> ',' !in l;
    assert forall l :: l in d ==> ',' !in l;
    SplitJoin(d, ',');
    LabelsOfIsFilteredSplit(r.joinedCategories);
    LabelsOfIsFilteredSplit(s.joinedCategories);
    forall l ensures l in Categories(r) <==> l in Categories(s) || l in added {
      calc {
        l in Categories(r);
        l in NonEmptyLabels(d);
        l != "" && l in d;
        l != "" && l in all;
        (l != "" && l in old_) || (l != "" && l in added);
        l in Categories(s) || l in added;
      }
    }
  }

  /**
   * Adding a label that is stored, but not last, stores it a second time:
   * with `a,b` stored, adding `a` stores `a,b,a`.
   */
  lemma AddCategoriesDuplicates(a: string, b: string)
    requires a != "" && b != "" && a != b
    requires ',' !in a && ',' !in b
    ensures Join(Dedup(Split(a + [','] + b, ',') + NonEmptyLabels([a])), ',') == a + [','] + b + [','] + a
  {
    SplitWithoutSeparator(b, ',');
    SplitAfterPiece(a, ',', b);
    assert NonEmptyLabels([a]) == [a] by {
      assert [a][..0] == [];
    }
    assert Split(a + [','] + b, ',') + NonEmptyLabels([a]) == [a, b, a];
    DedupKeepsSeparatedDuplicates(a, b);
    JoinThree(a, b, a, ',');
  }

  /**
   * `Subscription::remove_categories`. The labels pass through a hash set, so
   * duplicates collapse and the order of the result is unspecified: the model
   * takes them out of a set in an arbitrary order.
   */
  method RemoveCategories(s: Subscription, toRemove: seq<string>) returns (r: Subscription)
    ensures r == s.(joinedCategories := r.joinedCategories)
    ensures NoDuplicates(Categories(r))
    ensures forall l :: l in Categories(r) <==> l in Categories(s) && l !in toRemove
  {
    var pieces := Split(s.joinedCategories, ',');
    var categories: set<string> := set p | p in pieces;
    for i := 0 to |toRemove|
      invariant forall l :: l in categories <==> l in pieces && l !in toRemove[..i]
    {
      assert toRemove[..i + 1] == toRemove[..i] + [toRemove[i]];
      categories := categories - {toRemove[i]};
    }
    assert toRemove[..|toRemove|] == toRemove;
    var rest := categories;
    var labels: seq<string> := [];
    while rest != {}
      invariant rest <= categories
      invariant NoDuplicates(labels)
      invariant forall l :: l in labels <==> l in categories && l !in rest
    {
      var c :| c in rest;
      labels := labels + [c];
      rest := rest - {c};
    }
    r := s.(joinedCategories := Join(labels, ','));
    RemovedLabels(s.joinedCategories, toRemove, labels);
  }

  /** The labels kept by the filter are exactly the non-empty ones. */
  lemma NonEmptyLabelsMembership(labels: seq<string>)
    ensures forall l :: l in NonEmptyLabels(labels) <==> l != "" && l in labels
  {
    var r := NonEmptyLabels(labels);
    forall l | l != "" && l in labels ensures l in r {
      var i :| 0 <= i < |labels| && labels[i] == l;
    }
    forall l | l in r ensures l != "" && l in labels {
      var i :| 0 <= i < |r| && r[i] == l;
    }
  }

  /** Distinct comma-free pieces, joined and read back: the distinct non-empty ones. */
  lemma LabelsOfJoinDistinct(labels: seq<string>)
    requires NoDuplicates(labels)
    requires forall l :: l in labels ==> ',' !in l
    ensures NoDuplicates(LabelsOf(Join(labels, ',')))
    ensures forall l :: l in LabelsOf(Join(labels, ',')) <==> l != "" && l in labels
  {
    LabelsOfIsFilteredSplit(Join(labels, ','));
    if labels == [] {
      assert Split("", ',') == [""];
      NonEmptyLabelsMembership([""]);
    } else {
      SplitJoin(labels, ',');
      NonEmptyLabelsNoDuplicates(labels);
      NonEmptyLabelsMembership(labels);
    }
  }

  /** The label facts behind `RemoveCategories`. */
  lemma RemovedLabels(joined: string, toRemove: seq<string>, labels: seq<string>)
    requires NoDuplicates(labels)
    requires forall l :: l in labels <==> l in Split(joined, ',') && l !in toRemove
    ensures NoDuplicates(LabelsOf(Join(labels, ',')))
    ensures forall l :: l in LabelsOf(Join(labels, ',')) <==> l in LabelsOf(joined) && l !in toRemove
  {
    SplitPartsLackSeparator(joined, ',');
    LabelsOfIsFilteredSplit(joined);
    NonEmptyLabelsMembership(Split(joined, ','));
    LabelsOfJoinDistinct(labels);
  }

  /** The keys of the table: a user id and a subscription id. */
  type Key = (string, string)

  /** `subs` lists the rows of `userId` in `table`, each once, in some order. */
  ghost predicate UserRows(table: map<Key, Subscription>, userId: string, subs: seq<Subscription>) {
    && NoDuplicates(subs)
    && (forall k :: k in table && k.0 == userId ==> table[k] in subs)
    && (forall s :: s in subs ==> s.userId == userId && (s.userId, s.id) in table && table[(s.userId, s.id)] == s)
  }

  /** The Subscriptions table. */
  class SubscriptionRepository {
    var table: map<Key, Subscription>

    /** Every row sits under its own `(user_id, id)`. */
    ghost predicate Valid()
      reads this
    {
      forall k :: k in table ==> table[k].userId == k.0 && table[k].id == k.1
    }

    constructor ()
      ensures Valid() && table == map[]
    {
      table := map[];
    }

    /** `insert_subscription`: a second row under the same key violates the table's key. */
    method InsertSubscription(s: Subscription) returns (r: Result<(), Error>)
      requires Valid()
      modifies this
      ensures Valid()
      ensures (s.userId, s.id) in old(table) ==> r.Err? && table == old(table)
      ensures (s.userId, s.id) !in old(table) ==> r == Ok(()) && table == old(table)[(s.userId, s.id) := s]
      ensures r.Ok? ==> GetSubscription(s.userId, s.id) == Some(s)
    {
      if (s.userId, s.id) in table {
        r := Err(Storage("UNIQUE constraint failed: Subscriptions"));
      } else {
        table := table[(s.userId, s.id) := s];
        r := Ok(());
      }
    }

    /**
     * `update_subscription`: refuses a missing row with `SubscriptionNotFound`;
     * otherwise every stored field becomes the argument's, which is returned.
     */
    method UpdateSubscription(s: Subscription) returns (r: Result<Subscription, Error>)
      requires Valid()
      modifies this
      ensures Valid()
      ensures (s.userId, s.id) !in old(table) ==> r == Err(SubscriptionNotFound) && table == old(table)
      ensures (s.userId, s.id) in old(table) ==> r == Ok(s) && table == old(table)[(s.userId, s.id) := s]
      ensures r.Ok? ==> GetSubscription(s.userId, s.id) == Some(s)
    {
      if GetSubscription(s.userId, s.id).None? {
        return Err(SubscriptionNotFound);
      }
      table := table[(s.userId, s.id) := s];
      r := Ok(s);
    }

    /** `remove_subscription`: deleting an absent row is not an error. */
    method RemoveSubscription(userId: string, id: string) returns (r: Result<(), Error>)
      requires Valid()
      modifies this
      ensures Valid()
      ensures r == Ok(()) && table == old(table) - {(userId, id)}
      ensures GetSubscription(userId, id) == None
    {
      table := table - {(userId, id)};
      r := Ok(());
    }

    /** `get_subscription`: the row under `(user_id, id)`, if any. */
    function GetSubscription(userId: string, id: string): (r: Option<Subscription>)
      reads this
      requires Valid()
      ensures r.Some? <==> (userId, id) in table
      ensures r.Some? ==> r.value.userId == userId && r.value.id == id
      ensures r.Some? ==> r.value == table[(userId, id)]
    {
      if (userId, id) in table then Some(table[(userId, id)]) else None
    }

    /**
     * `get_subscriptions`: the user's rows among `ids`, keyed by id. An empty
     * `ids` builds the malformed query `... AND ()`, which the database refuses.
     */
    function GetSubscriptions(userId: string, ids: seq<string>): (r: Result<map<string, Subscription>, Error>)
      reads this
      requires Valid()
      ensures r.Err? <==> ids == []
      ensures r.Ok? ==> forall id :: id in r.value <==> id in ids && (userId, id) in table
      ensures r.Ok? ==> forall id :: id in r.value ==> r.value[id] == table[(userId, id)] && r.value[id].id == id
    {
      if ids == [] then Err(Storage("syntax error near \")\""))
      else Ok(map id | id in ids && (userId, id) in table :: table[(userId, id)])
    }

    /** `list_user_subscriptions`: exactly the user's rows, each once, in no particular order. */
    method ListUserSubscriptions(userId: string) returns (subs: seq<Subscription>)
      requires Valid()
      ensures UserRows(table, userId, subs)
    {
      var keys := table.Keys;
      subs := [];
      while keys != {}
        invariant keys <= table.Keys
        invariant NoDuplicates(subs)
        invariant forall k :: k in table && k !in keys && k.0 == userId ==> table[k] in subs
        invariant forall s :: s in subs ==> s.userId == userId && (s.userId, s.id) in table && table[(s.userId, s.id)] == s && (s.userId, s.id) !in keys
      {
        var k :| k in keys;
        if k.0 == userId {
          subs := subs + [table[k]];
        }
        keys := keys - {k};
      }
    }

    /** `list_all_subscriptions`: every row, each once, in no particular order. */
    method ListAllSubscriptions() returns (subs: seq<Subscription>)
      requires Valid()
      ensures NoDuplicates(subs)
      ensures forall k :: k in table ==> table[k] in subs
      ensures forall s :: s in subs ==> (s.userId, s.id) in table && table[(s.userId, s.id)] == s
    {
      var keys := table.Keys;
      subs := [];
      while keys != {}
        invariant keys <= table.Keys
        invariant NoDuplicates(subs)
        invariant forall k :: k in table && k !in keys ==> table[k] in subs
        invariant forall s :: s in subs ==> (s.userId, s.id) in table && table[(s.userId, s.id)] == s && (s.userId, s.id) !in keys
      {
        var k :| k in keys;
        subs := subs + [table[k]];
        keys := keys - {k};
      }
    }
  }
}
