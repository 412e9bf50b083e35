// Data sets staged for creation and data sets on the server: their keys and their life cycle.
module DataSets {
  import opened Wrappers
  import opened CText
  import opened Strings

  const DATASET_NODE_KEY_INIT: string := "dts_"
  const DATASET_ELEMENT_NODE_KEY_INIT: string := "dse_"

  // convertDataSetRefForNodeKey on the prefixed reference
  function DsKey(dsRef: string): string {
    Replace(DATASET_NODE_KEY_INIT + dsRef, '/', '$')
  }

  // The key under which a report control block's data-set reference is looked up.
  function LookupKey(dataSetRef: string): string {
    Replace(Replace(DATASET_NODE_KEY_INIT + dataSetRef, '$', '.'), '/', '$')
  }

  // The key of a member: only the first slash is rewritten.
  function MemberKey(name: string): string
    requires '/' in name
  {
    var i := IndexOf(name, '/');
    DATASET_ELEMENT_NODE_KEY_INIT + name[..i] + ['$'] + name[i + 1..]
  }

  // A staged data set and its members by key; a data set on the server and its directory.
  datatype Staged = Staged(objref: string, members: map<string, string>)
  datatype Created = Created(objref: string, deletable: bool, members: seq<string>)

  datatype State = State(staged: map<string, Staged>, created: map<string, Created>)

  datatype Directory = Directory(members: seq<string>, deletable: bool)

  // The actions, each with what the server answers to it.
  datatype Event =
    | Prepare(dsRef: string)
    | AddMember(dsName: string, daRef: string)
    | RemoveMember(key: string, memberKey: string)
    | RemoveStaged(key: string)
    | CreateOnServer(key: string, accepted: bool, directory: Option<Directory>)
    | RemoveCreated(key: string, deleted: bool)
    | Discover(found: seq<(string, Directory)>)

  // getDatasetInfoFromServerCreateNode for each data set the server lists; a second one of a name is refused.
  function Found(found: seq<(string, Directory)>): (r: map<string, Created>)
    ensures forall k :: k in r ==> k == DsKey(r[k].objref)
  {
    if found == [] then map[]
    else
      var before, (dsRef, directory) := Found(found[..|found| - 1]), found[|found| - 1];
      if DsKey(dsRef) in before then before
      else before[DsKey(dsRef) := Created(dsRef, directory.deletable, directory.members)]
  }

  function Step(s: State, e: Event): State {
    match e
    case Prepare(dsRef) =>
      if DsKey(dsRef) in s.created || DsKey(dsRef) in s.staged then s
      else s.(staged := s.staged[DsKey(dsRef) := Staged(dsRef, map[])])
    case AddMember(dsName, daRef) =>
      var key := DATASET_NODE_KEY_INIT + dsName;
      if dsName == "" || key !in s.staged || '/' !in daRef || MemberKey(daRef) in s.staged[key].members then s
      else s.(staged := s.staged[key := s.staged[key].(members := s.staged[key].members[MemberKey(daRef) := daRef])])
    case RemoveMember(key, memberKey) =>
      if key !in s.staged then s
      else s.(staged := s.staged[key := s.staged[key].(members := s.staged[key].members - {memberKey})])
    case RemoveStaged(key) => s.(staged := s.staged - {key})
    case CreateOnServer(key, accepted, directory) =>
      if key !in s.staged || s.staged[key].members == map[] || !accepted || directory.None? then s
      else
        var dsRef := s.staged[key].objref;
        if DsKey(dsRef) in s.created then s
        else State(s.staged - {key},
                   s.created[DsKey(dsRef) := Created(dsRef, directory.value.deletable, directory.value.members)])
    case RemoveCreated(key, deleted) => if deleted then s.(created := s.created - {key}) else s
    case Discover(found) => State(map[], Found(found))
  }

  function Run(es: seq<Event>): State {
    if es == [] then State(map[], map[]) else Step(Run(es[..|es| - 1]), es[|es| - 1])
  }

  // ---------------------------------------------------------------- the code

  class Folders {
    var staged: map<string, Staged>
    var created: map<string, Created>

    function View(): State
      reads this
    {
      State(staged, created)
    }

    constructor ()
      ensures View() == Run([])
    {
      staged, created := map[], map[];
    }

    // createPrepDatasetNode
    method CreatePrepDatasetNode(dsRef: string) returns (ok: bool)
      modifies this
      ensures View() == Step(old(View()), Prepare(dsRef))
      ensures ok <==> DsKey(dsRef) !in old(created) && DsKey(dsRef) !in old(staged)
    {
      var dsKey := Replace(DATASET_NODE_KEY_INIT + dsRef, '/', '$');
      if dsKey in created || dsKey in staged {
        ok := false;
      } else {
        staged := staged[dsKey := Staged(dsRef, map[])];
        ok := true;
      }
    }

    // addDAToDSAction with addMemberToPrepDatasetNode; a member reference always has a slash
    method AddDAToDS(dsName: string, objRef: string, fc: string)
      requires '/' in objRef
      modifies this
      ensures View() == Step(old(View()), AddMember(dsName, objRef + "[" + fc + "]"))
    {
      var memberName := objRef + "[" + fc + "]";
      if |dsName| > 0 {
        var dsKey := DATASET_NODE_KEY_INIT + dsName;
        if dsKey in staged {
          var slashPtr := IndexOf(memberName, '/');
          IndexOfPresent(memberName, '/', objRef);
          var chMemberName := DATASET_ELEMENT_NODE_KEY_INIT + memberName[..slashPtr] + ['$']
                              + memberName[slashPtr + 1..];
          var members := staged[dsKey].members;
          if chMemberName !in members {
            staged := staged[dsKey := staged[dsKey].(members := members[chMemberName := memberName])];
          }
        }
      }
    }

    method RmMemberPrepDs(key: string, memberKey: string)
      requires key in staged && memberKey in staged[key].members
      modifies this
      ensures View() == Step(old(View()), Event.RemoveMember(key, memberKey))
    {
      staged := staged[key := staged[key].(members := staged[key].members - {memberKey})];
    }

    method RemovePrepDs(key: string)
      modifies this
      ensures View() == Step(old(View()), Event.RemoveStaged(key))
    {
      staged := staged - {key};
    }

    // The loop that lists the members of a staged data set.
    static method MemberList(order: seq<string>, members: map<string, string>) returns (sent: seq<string>)
      requires forall i :: 0 <= i < |order| ==> order[i] in members
      ensures sent == Names(order, members)
    {
      sent := [];
      var i := 0;
      while i < |order|
        invariant 0 <= i <= |order|
        invariant sent == Names(order[..i], members)
      {
        assert order[..i + 1][..i] == order[..i];
        sent := sent + [members[order[i]]];
        i := i + 1;
      }
      assert order[..i] == order;
    }

    // create_ds_onserver_action. order is the order in which the member nodes are visited; sent is
    // the list handed to the server, empty when the server is not called.
    method CreateDsOnServer(key: string, order: seq<string>, accepted: bool, directory: Option<Directory>)
      returns (sent: seq<string>)
      requires key in staged && Visits(order, staged[key].members.Keys)
      modifies this
      ensures View() == Step(old(View()), Event.CreateOnServer(key, accepted, directory))
      ensures sent == Names(order, old(staged)[key].members)
    {
      sent := MemberList(order, staged[key].members);
      VisitsNothing(order, staged[key].members);
      if |sent| > 0 {
        if accepted && directory.Some? {
          var dsRef := staged[key].objref;
          var dsKey := Replace(DATASET_NODE_KEY_INIT + dsRef, '/', '$');
          if dsKey !in created {
            created := created[dsKey := Created(dsRef, directory.value.deletable, directory.value.members)];
            RemovePrepDs(key);
          }
        }
      }
    }

    method RemoveDataset(key: string, deleted: bool)
      modifies this
      ensures View() == Step(old(View()), Event.RemoveCreated(key, deleted))
    {
      if deleted {
        created := created - {key};
      }
    }

    // Discovery makes both folders anew and fills the one with the server's data sets.
    method DiscoverDataSets(found: seq<(string, Directory)>)
      modifies this
      ensures View() == Step(old(View()), Event.Discover(found))
    {
      staged, created := map[], map[];
      var i := 0;
      while i < |found|
        invariant 0 <= i <= |found| && staged == map[] && created == Found(found[..i])
      {
        var (dsRef, directory) := found[i];
        assert found[..i + 1][..i] == found[..i];
        if DsKey(dsRef) !in created {
          created := created[DsKey(dsRef) := Created(dsRef, directory.deletable, directory.members)];
        }
        i := i + 1;
      }
      assert found[..i] == found;
    }

    // getDataSetNodeFromRef
    method GetDataSetNodeFromRef(dataSetRef: string) returns (key: Option<string>)
      ensures key == if LookupKey(dataSetRef) in created then Some(LookupKey(dataSetRef)) else None
    {
      var dsRef := Replace(DATASET_NODE_KEY_INIT + dataSetRef, '$', '.');
      dsRef := Replace(dsRef, '/', '$');
      key := if dsRef in created then Some(dsRef) else None;
    }
  }

  function Names(order: seq<string>, members: map<string, string>): (r: seq<string>)
    requires forall i :: 0 <= i < |order| ==> order[i] in members
    ensures |r| == |order|
    ensures forall i :: 0 <= i < |order| ==> r[i] == members[order[i]]
  {
    if order == [] then [] else Names(order[..|order| - 1], members) + [members[order[|order| - 1]]]
  }

  lemma VisitsNothing(order: seq<string>, members: map<string, string>)
    requires Visits(order, members.Keys)
    ensures |order| == 0 <==> members == map[]
  {
    assert |order| > 0 ==> order[0] in members;
    if members != map[] {
      var k :| k in members;
      assert k in order;
    }
  }

  lemma IndexOfPresent(s: string, c: char, t: string)
    requires t <= s && c in t
    ensures c in s && IndexOf(s, c) < |s|
  {
    var i :| 0 <= i < |t| && t[i] == c;
    assert s[i] == c;
    assert s[..|s|] == s;
  }

  // ---------------------------------------------------------------- invariants over runs

  // The two folders never share a key, every data set sits under the key of its reference,
  // and every staged member under the key of its name.
  predicate Inv(s: State) {
    && s.staged.Keys !! s.created.Keys
    && (forall k :: k in s.staged ==> k == DsKey(s.staged[k].objref))
    && (forall k :: k in s.created ==> k == DsKey(s.created[k].objref))
    && forall k, m :: k in s.staged && m in s.staged[k].members ==>
         '/' in s.staged[k].members[m] && m == MemberKey(s.staged[k].members[m])
  }

  lemma StepKeepsInv(s: State, e: Event)
    requires Inv(s)
    ensures Inv(Step(s, e))
  {
  }

  // In every reachable state.
  lemma {:induction false} Reachable(es: seq<Event>)
    ensures Inv(Run(es))
  {
    if es != [] {
      Reachable(es[..|es| - 1]);
      StepKeepsInv(Run(es[..|es| - 1]), es[|es| - 1]);
    }
  }

  // Creating on the server moves exactly this one key across, or changes nothing; it moves it
  // exactly if there are members, the server accepts them and its directory can be read.
  lemma CreateMovesOneKey(es: seq<Event>, key: string, accepted: bool, directory: Option<Directory>)
    ensures var s, t := Run(es), Run(es + [Event.CreateOnServer(key, accepted, directory)]);
            if key in s.staged && s.staged[key].members != map[] && accepted && directory.Some? then
              && t.staged == s.staged - {key}
              && key !in s.created && t.created.Keys == s.created.Keys + {key}
              && (forall k :: k in s.created ==> t.created[k] == s.created[k])
              && t.created[key] == Created(s.staged[key].objref, directory.value.deletable, directory.value.members)
            else t == s
  {
    Reachable(es);
    var e := Event.CreateOnServer(key, accepted, directory);
    assert (es + [e])[..|es + [e]| - 1] == es;
  }

  // Some live name other than this one has its member key: the addition would be refused.
  predicate Taken(live: set<string>, name: string)
    requires '/' in name
  {
    exists n :: n in live && n != name && '/' in n && MemberKey(n) == MemberKey(name)
  }

  // The live names after one more event at a key that stays staged.
  function LiveStep(e: Event, key: string, live: set<string>): set<string> {
    match e
    case AddMember(dsName, daRef) =>
      if DATASET_NODE_KEY_INIT + dsName == key && dsName != "" && '/' in daRef && !Taken(live, daRef) then
        live + {daRef}
      else live
    case RemoveMember(k, memberKey) =>
      if k == key then set n | n in live && !('/' in n && MemberKey(n) == memberKey) else live
    case _ => live
  }

  // The names staged under a key and not removed since, read off the events alone.
  function LiveNames(es: seq<Event>, key: string): set<string> {
    if es == [] then {}
    else
      var before, e := es[..|es| - 1], es[|es| - 1];
      if key !in Run(before).staged then {} else LiveStep(e, key, LiveNames(before, key))
  }

  // References without the character the keys use.
  predicate NoDollar(es: seq<Event>) {
    forall i :: 0 <= i < |es| && es[i].AddMember? ==> '$' !in es[i].daRef
  }

  lemma MemberKeyInjective(a: string, b: string)
    requires '/' in a && '/' in b && '$' !in a && '$' !in b && MemberKey(a) == MemberKey(b)
    ensures a == b
  {
    MemberKeyParts(a);
    MemberKeyParts(b);
    var i := IndexOf(a, '/');
    assert b[i] in b;
    assert IndexOf(b, '/') == i;
    forall k | 0 <= k < |a|
      ensures a[k] == b[k]
    {
    }
  }

  lemma MemberKeyParts(a: string)
    requires '/' in a
    ensures var i, n, key := IndexOf(a, '/'), |DATASET_ELEMENT_NODE_KEY_INIT|, MemberKey(a);
            && i < |a| && a[i] == '/' && |key| == n + |a| && key[n + i] == '$'
            && forall k :: 0 <= k < |a| && k != i ==> key[n + k] == a[k]
  {
    IndexOfPresent(a, '/', a);
  }

  // In every reachable state the members staged under a key are exactly the names added and not removed since.
  lemma {:induction false} StagedIsLive(es: seq<Event>, key: string)
    requires key in Run(es).staged
    ensures Run(es).staged[key].members.Values == LiveNames(es, key)
  {
    if es != [] {
      var before, e := es[..|es| - 1], es[|es| - 1];
      Reachable(before);
      if key in Run(before).staged {
        StagedIsLive(before, key);
        StagedStep(Run(before), e, key, LiveNames(before, key));
      } else {
        NewlyStaged(Run(before), e, key);
      }
    }
  }

  lemma NewlyStaged(s: State, e: Event, key: string)
    requires key !in s.staged && key in Step(s, e).staged
    ensures Step(s, e).staged[key].members.Values == {}
  {
  }

  lemma ValuesAdded(before: map<string, string>, m: string, name: string)
    requires m !in before
    ensures before[m := name].Values == before.Values + {name}
  {
    var after := before[m := name];
    assert after[m] == name;
    forall n | n in before.Values
      ensures n in after.Values
    {
      var k :| k in before && before[k] == n;
      assert after[k] == n;
    }
  }

  lemma ValuesRemoved(before: map<string, string>, memberKey: string)
    requires forall m :: m in before ==> '/' in before[m] && m == MemberKey(before[m])
    ensures (before - {memberKey}).Values == set n | n in before.Values && !('/' in n && MemberKey(n) == memberKey)
  {
    var after := before - {memberKey};
    forall n | n in before.Values && MemberKey(n) != memberKey
      ensures n in after.Values
    {
      var k :| k in before && before[k] == n;
      assert after[k] == n;
    }
  }

  lemma StagedStep(s: State, e: Event, key: string, live: set<string>)
    requires Inv(s) && key in s.staged && key in Step(s, e).staged && s.staged[key].members.Values == live
    ensures Step(s, e).staged[key].members.Values == LiveStep(e, key, live)
  {
    var before := s.staged[key].members;
    if e.AddMember? && DATASET_NODE_KEY_INIT + e.dsName == key && e.dsName != "" && '/' in e.daRef {
      StagedAdd(before, e.daRef);
    } else if e.RemoveMember? && e.key == key {
      ValuesRemoved(before, e.memberKey);
    }
  }

  // An addition either finds its key free, or finds there the name itself or another name.
  lemma StagedAdd(before: map<string, string>, name: string)
    requires '/' in name && forall m :: m in before ==> '/' in before[m] && m == MemberKey(before[m])
    ensures var m := MemberKey(name);
            var after := if m in before then before else before[m := name];
            after.Values == if Taken(before.Values, name) then before.Values else before.Values + {name}
  {
    var m := MemberKey(name);
    if m in before {
      assert before[m] in before.Values;
    } else {
      ValuesAdded(before, m, name);
      forall n | n in before.Values
        ensures MemberKey(n) != m
      {
        var k :| k in before && before[k] == n;
      }
    }
  }

  // What a create action sends in a reachable state: each live name once.
  lemma SentIsLive(es: seq<Event>, key: string, order: seq<string>)
    requires key in Run(es).staged && Visits(order, Run(es).staged[key].members.Keys)
    ensures var sent := Names(order, Run(es).staged[key].members);
            && (forall n :: n in sent <==> n in LiveNames(es, key))
            && forall i, j :: 0 <= i < j < |sent| ==> sent[i] != sent[j]
  {
    var members := Run(es).staged[key].members;
    var sent := Names(order, members);
    Reachable(es);
    StagedIsLive(es, key);
    forall n | n in LiveNames(es, key)
      ensures n in sent
    {
      var k :| k in members && members[k] == n;
      var i :| 0 <= i < |order| && order[i] == k;
      assert sent[i] == n;
    }
    forall i, j | 0 <= i < j < |sent|
      ensures sent[i] != sent[j]
    {
      assert order[i] == MemberKey(members[order[i]]) && order[j] == MemberKey(members[order[j]]);
    }
  }

  // An added reference is staged afterwards exactly if no other live name has its member key.
  lemma AddedIsStaged(es: seq<Event>, dsName: string, daRef: string)
    requires dsName != "" && '/' in daRef && DATASET_NODE_KEY_INIT + dsName in Run(es).staged
    ensures var key, t := DATASET_NODE_KEY_INIT + dsName, Run(es + [Event.AddMember(dsName, daRef)]);
            && key in t.staged
            && (daRef in t.staged[key].members.Values <==> !Taken(LiveNames(es, key), daRef))
  {
    var key, e := DATASET_NODE_KEY_INIT + dsName, Event.AddMember(dsName, daRef);
    assert (es + [e])[..|es + [e]| - 1] == es;
    Reachable(es);
    StagedIsLive(es, key);
    StagedStep(Run(es), e, key, LiveNames(es, key));
    if daRef in LiveNames(es, key) {
      NotTaken(Run(es).staged[key].members, daRef);
    }
  }

  lemma NotTaken(members: map<string, string>, name: string)
    requires name in members.Values && '/' in name
    requires forall m :: m in members ==> '/' in members[m] && m == MemberKey(members[m])
    ensures !Taken(members.Values, name)
  {
    var j :| j in members && members[j] == name;
    forall n | n in members.Values && MemberKey(n) == MemberKey(name)
      ensures n == name
    {
      var k :| k in members && members[k] == n;
    }
  }

  lemma {:induction false} LiveClean(es: seq<Event>, key: string)
    requires NoDollar(es)
    ensures forall n :: n in LiveNames(es, key) ==> '$' !in n
  {
    if es != [] {
      assert forall i :: 0 <= i < |es| - 1 ==> es[..|es| - 1][i] == es[i];
      LiveClean(es[..|es| - 1], key);
    }
  }

  // So without dollar signs in the references no addition is ever refused.
  lemma NothingRefused(es: seq<Event>, dsName: string, daRef: string)
    requires NoDollar(es) && '$' !in daRef
    requires dsName != "" && '/' in daRef && DATASET_NODE_KEY_INIT + dsName in Run(es).staged
    ensures var key, t := DATASET_NODE_KEY_INIT + dsName, Run(es + [Event.AddMember(dsName, daRef)]);
            key in t.staged && daRef in t.staged[key].members.Values
  {
    var key := DATASET_NODE_KEY_INIT + dsName;
    AddedIsStaged(es, dsName, daRef);
    LiveClean(es, key);
    forall n | n in LiveNames(es, key) && '/' in n && MemberKey(n) == MemberKey(daRef)
      ensures n == daRef
    {
      MemberKeyInjective(n, daRef);
    }
  }

  // Two references that exchange a slash and a dollar sign have one member key.
  lemma MemberKeyClash(a: string, b: string, c: string)
    requires '/' !in a && '/' !in b
    ensures MemberKey(a + ['/'] + (b + ['$'] + c)) == MemberKey((a + ['$'] + b) + ['/'] + c)
  {
    var left, right := b + ['$'] + c, a + ['$'] + b;
    IndexOfConcat(a, '/', left);
    IndexOfConcat(right, '/', c);
    var s, t := a + ['/'] + left, right + ['/'] + c;
    assert s[..|a|] == a && s[|a| + 1..] == left && t[..|right|] == right && t[|right| + 1..] == c;
    assert a + ['$'] + left == right + ['$'] + c;
  }

  // So of two such references the second is refused.
  lemma SecondRefused(es: seq<Event>, dsName: string, first: string, second: string)
    requires dsName != "" && DATASET_NODE_KEY_INIT + dsName in Run(es).staged
    requires '/' in first && '/' in second && first != second && MemberKey(first) == MemberKey(second)
    requires !Taken(LiveNames(es, DATASET_NODE_KEY_INIT + dsName), first)
    ensures var t := Run(es + [Event.AddMember(dsName, first)] + [Event.AddMember(dsName, second)]);
            var key := DATASET_NODE_KEY_INIT + dsName;
            key in t.staged && second !in t.staged[key].members.Values
  {
    var key, next := DATASET_NODE_KEY_INIT + dsName, es + [Event.AddMember(dsName, first)];
    AddedIsStaged(es, dsName, first);
    StagedIsLive(next, key);
    assert first in LiveNames(next, key);
    AddedIsStaged(next, dsName, second);
  }

  // A run in which that happens: x/y$z is staged, and x$y/z refused.
  lemma RefusedRun()
    ensures var es := [Event.Prepare("d")] + [Event.AddMember("d", "x/y$z")] + [Event.AddMember("d", "x$y/z")];
            "dts_d" in Run(es).staged && "x$y/z" !in Run(es).staged["dts_d"].members.Values
  {
    var es := [Event.Prepare("d")];
    assert es[..|es| - 1] == [];
    assert DsKey("d") == DATASET_NODE_KEY_INIT + "d" by {
      ReplaceAbsent(DATASET_NODE_KEY_INIT + "d", '/', '$');
    }
    assert DATASET_NODE_KEY_INIT + "d" == "dts_d";
    assert Run(es) == Step(Run([]), Event.Prepare("d"));
    assert LiveNames(es, "dts_d") == {};
    MemberKeyClash("x", "y", "z");
    assert "x" + ['/'] + ("y" + ['$'] + "z") == "x/y$z" && ("x" + ['$'] + "y") + ['/'] + "z" == "x$y/z";
    assert "x/y$z"[1] == '/' && "x$y/z"[3] == '/' && "x/y$z"[3] != "x$y/z"[3];
    SecondRefused(es, "d", "x/y$z", "x$y/z");
  }

  // ---------------------------------------------------------------- what each event leaves behind

  lemma RunAppend(es: seq<Event>, e: Event)
    ensures Run(es + [e]) == Step(Run(es), e)
  {
    assert (es + [e])[..|es + [e]| - 1] == es;
  }

  // Preparing stages an empty data set under the key of its reference, unless one of either folder has the key.
  lemma PrepareStages(es: seq<Event>, dsRef: string)
    ensures var s, t, key := Run(es), Run(es + [Event.Prepare(dsRef)]), DsKey(dsRef);
            && t.created == s.created
            && (key in s.created || key in s.staged ==> t == s)
            && (key !in s.created && key !in s.staged ==>
                 && t.staged.Keys == s.staged.Keys + {key}
                 && t.staged[key].objref == dsRef && t.staged[key].members == map[]
                 && forall k :: k in s.staged ==> t.staged[k] == s.staged[k])
  {
    RunAppend(es, Event.Prepare(dsRef));
  }

  // Removing a member takes exactly that one away.
  lemma RemoveTakesMember(es: seq<Event>, key: string, memberKey: string)
    ensures var s, t := Run(es), Run(es + [Event.RemoveMember(key, memberKey)]);
            && t.created == s.created && t.staged.Keys == s.staged.Keys
            && (forall k :: k in s.staged && k != key ==> t.staged[k] == s.staged[k])
            && (key in s.staged ==>
                 && t.staged[key].objref == s.staged[key].objref
                 && t.staged[key].members == s.staged[key].members - {memberKey})
  {
    RunAppend(es, Event.RemoveMember(key, memberKey));
  }

  // Removing a staged data set takes exactly that one away.
  lemma RemoveTakesStaged(es: seq<Event>, key: string)
    ensures var s, t := Run(es), Run(es + [Event.RemoveStaged(key)]);
            && t.created == s.created && t.staged.Keys == s.staged.Keys - {key}
            && forall k :: k in t.staged ==> t.staged[k] == s.staged[k]
  {
    RunAppend(es, Event.RemoveStaged(key));
  }

  // Removing a data set on the server takes exactly that one away, and nothing if the server refuses.
  lemma RemoveTakesCreated(es: seq<Event>, key: string, deleted: bool)
    ensures var s, t := Run(es), Run(es + [Event.RemoveCreated(key, deleted)]);
            && t.staged == s.staged && t.created.Keys == s.created.Keys - (if deleted then {key} else {})
            && forall k :: k in t.created ==> t.created[k] == s.created[k]
  {
    RunAppend(es, Event.RemoveCreated(key, deleted));
  }

  // Entry i of a list is the first of its key.
  predicate FirstOfKey(found: seq<(string, Directory)>, i: nat)
    requires i < |found|
  {
    forall j :: 0 <= j < i ==> DsKey(found[j].0) != DsKey(found[i].0)
  }

  lemma {:induction false} FoundKeys(found: seq<(string, Directory)>, k: string)
    ensures k in Found(found) <==> exists i :: 0 <= i < |found| && DsKey(found[i].0) == k
  {
    if found != [] {
      var n := |found| - 1;
      var before := found[..n];
      FoundKeys(before, k);
      if i :| 0 <= i < n && DsKey(found[i].0) == k {
        assert DsKey(before[i].0) == k;
      }
      if i :| 0 <= i < n && DsKey(before[i].0) == k {
        assert DsKey(found[i].0) == k;
      }
      assert k == DsKey(found[n].0) ==> k in Found(found);
    }
  }

  lemma {:induction false} FoundValue(found: seq<(string, Directory)>, i: nat)
    requires i < |found| && FirstOfKey(found, i)
    ensures var k, directory := DsKey(found[i].0), found[i].1;
            k in Found(found) && Found(found)[k] == Created(found[i].0, directory.deletable, directory.members)
  {
    var n := |found| - 1;
    var before := found[..n];
    if i == n {
      FoundKeys(before, DsKey(found[n].0));
      assert forall j :: 0 <= j < n ==> before[j] == found[j];
    } else {
      assert forall j :: 0 <= j <= i ==> before[j] == found[j];
      FoundValue(before, i);
    }
  }

  // Discovery empties the staged folder and records exactly the data sets the server lists: under each key the
  // first of that key, with its reference, its members and whether it can be deleted.
  lemma DiscoverRecords(es: seq<Event>, found: seq<(string, Directory)>)
    ensures var t := Run(es + [Event.Discover(found)]);
            && t.staged == map[]
            && (forall k :: k in t.created <==> exists i :: 0 <= i < |found| && DsKey(found[i].0) == k)
            && forall i :: 0 <= i < |found| && FirstOfKey(found, i) ==>
                 var k := DsKey(found[i].0);
                 && k in t.created && t.created[k].objref == found[i].0
                 && t.created[k].deletable == found[i].1.deletable && t.created[k].members == found[i].1.members
  {
    RunAppend(es, Event.Discover(found));
    forall k
      ensures k in Found(found) <==> exists i :: 0 <= i < |found| && DsKey(found[i].0) == k
    {
      FoundKeys(found, k);
    }
    forall i | 0 <= i < |found| && FirstOfKey(found, i)
      ensures var k, directory := DsKey(found[i].0), found[i].1;
              k in Found(found) && Found(found)[k] == Created(found[i].0, directory.deletable, directory.members)
    {
      FoundValue(found, i);
    }
  }

  // A key has the prefix of its folder and no slash, and references without a dollar sign have keys of their own.
  lemma DsKeyMeans(dsRef: string, other: string)
    ensures DATASET_NODE_KEY_INIT <= DsKey(dsRef) && '/' !in DsKey(dsRef)
    ensures '$' !in dsRef && '$' !in other && DsKey(dsRef) == DsKey(other) ==> dsRef == other
  {
    ReplaceConcat(DATASET_NODE_KEY_INIT, dsRef, '/', '$');
    ReplaceConcat(DATASET_NODE_KEY_INIT, other, '/', '$');
    ReplaceAbsent(DATASET_NODE_KEY_INIT, '/', '$');
    if DsKey(dsRef) == DsKey(other) {
      var n := |DATASET_NODE_KEY_INIT|;
      assert DsKey(dsRef)[n..] == Replace(dsRef, '/', '$') && DsKey(other)[n..] == Replace(other, '/', '$');
      ReplaceUndone(dsRef, '/', '$');
      ReplaceUndone(other, '/', '$');
    }
  }
}
