/** Vote targets and their tobin taxes (ApplyWhitelist in x/oracle/keeper/ballot.go). */
module Whitelist {
  import opened Orders

  datatype Target = Target(name: string, tax: int)

  /** The taxes a whitelist asks for; a repeated name takes its last tax. */
  function Listed(list: seq<Target>): map<string, int> {
    if list == [] then map[]
    else Listed(list[..|list| - 1])[list[|list| - 1].name := list[|list| - 1].tax]
  }

  predicate Differs(targets: map<string, int>, t: Target) {
    t.name !in targets || targets[t.name] != t.tax
  }

  predicate UpdateRequired(targets: map<string, int>, list: seq<Target>) {
    |targets| != |list| || exists t :: t in list && Differs(targets, t)
  }

  /** The stored taxes afterwards, from the stored ones and the targets that survived the tally. */
  function NewTaxes(taxes: map<string, int>, targets: map<string, int>, list: seq<Target>): map<string, int> {
    if UpdateRequired(targets, list) then Listed(list) else taxes
  }

  /** Bank metadata takes the first letter off a name and the last letter off the rest. */
  predicate Nameless(metadata: set<string>, t: Target) {
    t.name !in metadata && |t.name| < 2
  }

  /** An update is due, and registers metadata for a name too short to have any. */
  predicate Unregistrable(metadata: set<string>, targets: map<string, int>, list: seq<Target>) {
    UpdateRequired(targets, list) && !AllNamed(metadata, list)
  }

  predicate AllNamed(metadata: set<string>, list: seq<Target>) {
    forall t :: t in list ==> !Nameless(metadata, t)
  }

  /** The denoms with metadata afterwards. */
  ghost function NewMetadata(metadata: set<string>, targets: map<string, int>, list: seq<Target>): set<string> {
    if UpdateRequired(targets, list) then metadata + Names(list) else metadata
  }

  ghost function Names(list: seq<Target>): set<string> {
    set t | t in list :: t.name
  }

  lemma EmptyList(metadata: set<string>)
    ensures Listed([]) == map[] && Names([]) == {} && AllNamed(metadata, [])
  {
  }

  /** One more item of the list: its tax is set, and its name has metadata. */
  lemma ListNext(list: seq<Target>, i: nat)
    requires i < |list|
    ensures Listed(list[..i + 1]) == Listed(list[..i])[list[i].name := list[i].tax]
    ensures Names(list[..i + 1]) == Names(list[..i]) + {list[i].name}
  {
    assert list[..i + 1][..i] == list[..i];
    assert list[..i + 1] == list[..i] + [list[i]];
  }

  /** A name that an earlier item registered is not short. */
  lemma NamedNext(metadata: set<string>, list: seq<Target>, i: nat)
    requires i < |list| && AllNamed(metadata, list[..i])
    ensures Nameless(metadata + Names(list[..i]), list[i]) <==> Nameless(metadata, list[i])
    ensures AllNamed(metadata, list[..i + 1]) <==> !Nameless(metadata, list[i])
    ensures Nameless(metadata, list[i]) ==> !AllNamed(metadata, list)
  {
    assert list[..i + 1] == list[..i] + [list[i]];
    assert list[i] in list;
  }

  ghost predicate DistinctNames(list: seq<Target>) {
    forall i, j :: 0 <= i < j < |list| ==> list[i].name != list[j].name
  }

  lemma {:induction false} ListedEntry(list: seq<Target>, t: Target)
    requires DistinctNames(list) && t in list
    ensures t.name in Listed(list) && Listed(list)[t.name] == t.tax
  {
    var n := |list| - 1;
    assert list == list[..n] + [list[n]];
    if t != list[n] {
      var i :| 0 <= i < n && list[i] == t;
      assert t in list[..n];
      ListedEntry(list[..n], t);
    }
  }

  lemma {:induction false} ListedKeys(list: seq<Target>, x: string)
    ensures x in Listed(list) <==> exists t :: t in list && t.name == x
  {
    if list != [] {
      var n := |list| - 1;
      ListedKeys(list[..n], x);
      assert list == list[..n] + [list[n]];
    }
  }

  /** Of a repeated name the last tax counts. */
  lemma {:induction false} LastTaxCounts(list: seq<Target>, i: nat)
    requires i < |list| && forall j :: i < j < |list| ==> list[j].name != list[i].name
    ensures list[i].name in Listed(list) && Listed(list)[list[i].name] == list[i].tax
  {
    var n := |list| - 1;
    if i < n {
      LastTaxCounts(list[..n], i);
    }
  }

  lemma {:induction false} ListedSize(list: seq<Target>)
    requires DistinctNames(list)
    ensures |Listed(list)| == |list|
  {
    if list != [] {
      var n := |list| - 1;
      ListedSize(list[..n]);
      ListedKeys(list[..n], list[n].name);
    }
  }

  lemma SubmapOfSameSize(a: map<string, int>, b: map<string, int>)
    requires |a| == |b| && forall x :: x in a ==> x in b && b[x] == a[x]
    ensures a == b
  {
    assert a.Keys <= b.Keys;
    SubsetOfSameSize(a.Keys, b.Keys);
  }

  lemma {:induction false} SubsetOfSameSize(a: set<string>, b: set<string>)
    requires a <= b && |a| == |b|
    ensures a == b
  {
    if a != {} {
      var x := Pick(a);
      SubsetOfSameSize(a - {x}, b - {x});
    } else {
      assert |b| == 0;
    }
  }

  /** What a listed name maps to is the tax of some item of that name. */
  lemma {:induction false} ListedFrom(list: seq<Target>, x: string) returns (t: Target)
    requires x in Listed(list)
    ensures t in list && t.name == x && t.tax == Listed(list)[x]
  {
    var n := |list| - 1;
    if x == list[n].name {
      t := list[n];
    } else {
      t := ListedFrom(list[..n], x);
    }
  }

  /** A repeated name makes the map smaller than the list. */
  lemma {:induction false} ListedSmaller(list: seq<Target>)
    ensures |Listed(list)| <= |list|
    ensures !DistinctNames(list) ==> |Listed(list)| < |list|
  {
    hide DistinctNames;
    if list == [] {
      EmptyIsDistinct(list);
    } else {
      var n := |list| - 1;
      ListedSmaller(list[..n]);
      ListedKeys(list[..n], list[n].name);
      RepeatedLast(list);
    }
  }

  lemma EmptyIsDistinct(list: seq<Target>)
    requires list == []
    ensures DistinctNames(list)
  {
  }

  /** A repeated name is repeated before the last item, or by it. */
  lemma RepeatedLast(list: seq<Target>)
    requires list != []
    ensures var before := list[..|list| - 1];
            DistinctNames(list) || !DistinctNames(before) || exists t :: t in before && t.name == list[|list| - 1].name
  {
    var n := |list| - 1;
    if !DistinctNames(list) && DistinctNames(list[..n]) {
      var i, j :| 0 <= i < j < |list| && list[i].name == list[j].name;
      assert list[i] in list[..n];
    }
  }

  /** If no update is due then the targets contain what the whitelist asks for. */
  lemma NoUpdateContains(targets: map<string, int>, list: seq<Target>, x: string)
    requires !UpdateRequired(targets, list) && x in Listed(list)
    ensures x in targets && targets[x] == Listed(list)[x]
  {
    var t := ListedFrom(list, x);
    assert !Differs(targets, t);
  }

  lemma DistinctNamesDetect(targets: map<string, int>, list: seq<Target>)
    requires DistinctNames(list)
    ensures UpdateRequired(targets, list) <==> targets != Listed(list)
  {
    hide Listed;
    ListedSize(list);
    forall t | t in list ensures t.name in Listed(list) && Listed(list)[t.name] == t.tax {
      ListedEntry(list, t);
    }
    if !UpdateRequired(targets, list) {
      forall x | x in Listed(list) ensures x in targets && targets[x] == Listed(list)[x] {
        NoUpdateContains(targets, list, x);
      }
      SubmapOfSameSize(Listed(list), targets);
    }
  }

  ghost predicate DetectsChanges(list: seq<Target>) {
    forall targets :: UpdateRequired(targets, list) <==> targets != Listed(list)
  }

  /** The test finds exactly the differences from a whitelist if and only if its names are distinct. */
  lemma UpdateRequiredIff(list: seq<Target>)
    ensures DetectsChanges(list) <==> DistinctNames(list)
  {
    hide Listed;
    if DistinctNames(list) {
      forall targets ensures UpdateRequired(targets, list) <==> targets != Listed(list) {
        DistinctNamesDetect(targets, list);
      }
    } else {
      ListedSmaller(list);
      assert UpdateRequired(Listed(list), list);
    }
  }

  /** Every whitelisted denom becomes a vote target with its listed tax, repeated names included. */
  lemma WhitelistedAreTargets(taxes: map<string, int>, targets: map<string, int>, list: seq<Target>, x: string)
    requires x in Listed(list)
    requires forall d :: d in targets ==> d in taxes && taxes[d] == targets[d]
    ensures x in NewTaxes(taxes, targets, list) && NewTaxes(taxes, targets, list)[x] == Listed(list)[x]
  {
    hide Listed;
    if !UpdateRequired(targets, list) {
      NoUpdateContains(targets, list, x);
    }
  }

  /**
   * With distinct names the targets become exactly the whitelist unless the survivors already were the
   * whitelist while a failed ballot left another stored target behind.
   */
  lemma ExactlyWhitelistIff(taxes: map<string, int>, targets: map<string, int>, list: seq<Target>)
    requires DistinctNames(list)
    ensures NewTaxes(taxes, targets, list) == Listed(list) <==> targets != Listed(list) || taxes == targets
  {
    hide Listed;
    DistinctNamesDetect(targets, list);
  }

  /** With a repeated name, targets within the whitelist are rewritten to exactly the whitelist. */
  lemma RepeatedNamesUpdate(taxes: map<string, int>, targets: map<string, int>, list: seq<Target>)
    requires !DistinctNames(list) && targets.Keys <= Listed(list).Keys
    ensures NewTaxes(taxes, targets, list) == Listed(list)
  {
    hide Listed;
    ListedSmaller(list);
    SubsetSize(targets.Keys, Listed(list).Keys);
    assert |targets| == |targets.Keys| && |Listed(list)| == |Listed(list).Keys|;
  }
}
