/**
 What the linked drift caches hold, as values.  An attachment list is cached per instance and its entries name child
 resources (VNICs or boot volumes) that are cached on their own; evicting a list evicts the children it names.
 */
module LinkedCaches {
  import opened Common

  datatype Attachment<D> = Attachment(childId: Option<string>, detail: D)

  datatype Linked<D, C> = Linked(lists: map<string, seq<Attachment<D>>>, children: map<string, C>)

  ghost function Refs<D>(list: seq<Attachment<D>>): set<string> {
    set i | 0 <= i < |list| && list[i].childId.Some? :: list[i].childId.value
  }

  /** Child `c` is named by a cached list of one of `ids`. */
  ghost predicate NamedFor<D>(lists: map<string, seq<Attachment<D>>>, ids: set<string>, c: string) {
    exists id :: id in ids && id in lists && c in Refs(lists[id])
  }

  ghost function ForgetLists<D, C>(l: Linked<D, C>, ids: set<string>): Linked<D, C> {
    Linked(l.lists - ids, map c | c in l.children && !NamedFor(l.lists, ids, c) :: l.children[c])
  }

  ghost function ReplaceList<D, C>(l: Linked<D, C>, id: string, list: seq<Attachment<D>>): Linked<D, C> {
    var rest := ForgetLists(l, {id});
    rest.(lists := rest.lists[id := list])
  }

  /** The reference invariant: every cached child is named by a cached list. */
  ghost predicate Referenced<D, C>(l: Linked<D, C>) {
    forall c :: c in l.children ==> NamedFor(l.lists, l.lists.Keys, c)
  }

  lemma ForgetKeepsReferenced<D, C>(l: Linked<D, C>, ids: set<string>)
    requires Referenced(l)
    ensures Referenced(ForgetLists(l, ids))
  {
    var t := ForgetLists(l, ids);
    forall c | c in t.children ensures NamedFor(t.lists, t.lists.Keys, c) {
      assert NamedFor(l.lists, l.lists.Keys, c) && !NamedFor(l.lists, ids, c);
      var id :| id in l.lists.Keys && id in l.lists && c in Refs(l.lists[id]);
      assert id in t.lists && t.lists[id] == l.lists[id];
    }
  }

  lemma AddListKeepsReferenced<D, C>(l: Linked<D, C>, id: string, list: seq<Attachment<D>>)
    requires Referenced(l) && id !in l.lists
    ensures Referenced(l.(lists := l.lists[id := list]))
  {
    var t := l.(lists := l.lists[id := list]);
    forall c | c in t.children ensures NamedFor(t.lists, t.lists.Keys, c) {
      var k :| k in l.lists.Keys && k in l.lists && c in Refs(l.lists[k]);
      assert k in t.lists && t.lists[k] == l.lists[k];
    }
  }

  lemma ReplaceKeepsReferenced<D, C>(l: Linked<D, C>, id: string, list: seq<Attachment<D>>)
    requires Referenced(l)
    ensures Referenced(ReplaceList(l, id, list))
  {
    ForgetKeepsReferenced(l, {id});
    AddListKeepsReferenced(ForgetLists(l, {id}), id, list);
  }

  /** Evicting lists one instance after the other is evicting them together. */
  lemma ForgetTwice<D, C>(l: Linked<D, C>, a: set<string>, b: set<string>)
    ensures ForgetLists(ForgetLists(l, a), b) == ForgetLists(l, a + b)
  {
    var once, twice := ForgetLists(l, a + b), ForgetLists(ForgetLists(l, a), b);
    assert l.lists - (a + b) == (l.lists - a) - b;
    forall c | c in l.children ensures c in once.children <==> c in twice.children {
      if NamedFor(l.lists, a + b, c) {
        var id :| id in a + b && id in l.lists && c in Refs(l.lists[id]);
        if id in a {
          assert NamedFor(l.lists, a, c);
        } else {
          assert id in l.lists - a;
        }
      }
    }
  }

  /** Only the ids that have a cached list matter. */
  lemma ForgetRestricted<D, C>(l: Linked<D, C>, a: set<string>, b: set<string>)
    requires a * l.lists.Keys == b * l.lists.Keys
    ensures ForgetLists(l, a) == ForgetLists(l, b)
  {
    assert forall id :: id in l.lists ==> (id in a <==> id in b) by {
      forall id | id in l.lists ensures id in a <==> id in b {
        assert id in a <==> id in a * l.lists.Keys;
      }
    }
    forall c ensures NamedFor(l.lists, a, c) <==> NamedFor(l.lists, b, c) {
    }
    assert l.lists - a == l.lists - b;
  }

  lemma ForgetNothing<D, C>(l: Linked<D, C>, ids: set<string>)
    requires ids !! l.lists.Keys
    ensures ForgetLists(l, ids) == l
  {
    assert forall c :: !NamedFor(l.lists, ids, c);
  }

  /** Restricting the lists to `kept` leaves only children named by a kept list. */
  lemma ForgottenLeavesKept<D, C>(l: Linked<D, C>, ids: set<string>, kept: set<string>)
    requires Referenced(l) && l.lists.Keys - ids <= kept
    ensures var t := ForgetLists(l, ids);
            && t.lists.Keys <= kept
            && (forall c :: c in t.children ==> NamedFor(t.lists, kept, c))
  {
    ForgetKeepsReferenced(l, ids);
    var t := ForgetLists(l, ids);
    forall c | c in t.children ensures NamedFor(t.lists, kept, c) {
      assert NamedFor(t.lists, t.lists.Keys, c);
    }
  }
}
