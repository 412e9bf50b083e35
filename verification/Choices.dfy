// The enum[...] texts offered to a user, and what becomes of the entry that is picked.
module Choices {
  import opened CText
  import opened Strings
  import opened DataSets

  const ENUM_INIT: string := "enum["

  // The loop both lists share: entries, each followed by a comma, whose last becomes the bracket.
  method EnumStr(entries: seq<string>) returns (enumStr: string, any: bool)
    ensures any <==> entries != []
    ensures enumStr == EnumText(entries)
  {
    enumStr := ENUM_INIT;
    var i := 0;
    while i < |entries|
      invariant 0 <= i <= |entries|
      invariant enumStr == ENUM_INIT + if i == 0 then [] else Join(entries[..i], ',') + [',']
    {
      if i > 0 {
        JoinAppend(entries[..i], entries[i], ',');
      }
      assert entries[..i + 1] == entries[..i] + [entries[i]];
      enumStr := enumStr + entries[i];
      enumStr := enumStr + [','];
      i := i + 1;
    }
    assert entries[..i] == entries;
    if i > 0 {
      enumStr := enumStr[|enumStr| - 1 := ']'];
      any := true;
    } else {
      enumStr := enumStr + [']'];
      any := false;
    }
  }

  function EnumText(entries: seq<string>): string {
    ENUM_INIT + (if entries == [] then [] else Join(entries, ',')) + [']']
  }

  // The choices a reader of the text sees between the brackets.
  function Offered(enumStr: string): seq<string>
    requires |enumStr| >= |ENUM_INIT| + 1
  {
    Split(enumStr[|ENUM_INIT|..|enumStr| - 1], ',')
  }

  // The text reads enum[...], with nothing between the brackets if there are no entries.
  lemma EnumTextReads(entries: seq<string>)
    ensures var text := EnumText(entries);
            && |text| >= 6 && text[..5] == "enum[" && text[|text| - 1] == ']'
            && (entries == [] ==> |text| == 6)
            && (entries != [] ==> text[5..|text| - 1] == Join(entries, ','))
  {
    var text := EnumText(entries);
    assert text[..|ENUM_INIT|] == ENUM_INIT;
  }

  // The choices are the entries exactly if no entry contains a comma, and an entry is a choice exactly if it
  // does not contain one itself.
  predicate OffersWhole(entries: seq<string>) {
    var offered := Offered(EnumText(entries));
    && (offered == entries <==> forall i :: 0 <= i < |entries| ==> ',' !in entries[i])
    && forall i :: 0 <= i < |entries| ==> (entries[i] in offered <==> ',' !in entries[i])
  }

  lemma OfferedIff(entries: seq<string>)
    requires entries != []
    ensures OffersWhole(entries)
  {
    var text := EnumText(entries);
    assert text[|ENUM_INIT|..|text| - 1] == Join(entries, ',');
    SplitJoinIff(entries, ',');
  }

  // The children of a folder that are data sets, in the order they are visited.
  function DataSetKeys(children: seq<string>): (r: seq<string>)
    ensures forall i :: 0 <= i < |r| ==> DATASET_NODE_KEY_INIT <= r[i] && r[i] in children
    ensures forall k :: k in children && DATASET_NODE_KEY_INIT <= k ==> k in r
    ensures (forall i, j :: 0 <= i < j < |children| ==> children[i] != children[j]) ==>
              forall i, j :: 0 <= i < j < |r| ==> r[i] != r[j]
  {
    if children == [] then []
    else
      assert forall k :: k in children ==> k == children[0] || k in children[1..];
      (if DATASET_NODE_KEY_INIT <= children[0] then [children[0]] else []) + DataSetKeys(children[1..])
  }

  function PrepEntries(keys: seq<string>): (r: seq<string>)
    requires forall i :: 0 <= i < |keys| ==> DATASET_NODE_KEY_INIT <= keys[i]
    ensures |r| == |keys|
    ensures forall i :: 0 <= i < |keys| ==> r[i] == keys[i][4..] && keys[i] == DATASET_NODE_KEY_INIT + r[i]
  {
    seq(|keys|, i requires 0 <= i < |keys| => keys[i][4..])
  }

  lemma PrepStep(entries: seq<string>, children: seq<string>, i: nat)
    requires i < |children|
    ensures entries + PrepEntries(DataSetKeys(children[i..]))
         == (if DATASET_NODE_KEY_INIT <= children[i] then entries + [children[i][4..]] else entries)
            + PrepEntries(DataSetKeys(children[i + 1..]))
  {
    assert children[i..][0] == children[i] && children[i..][1..] == children[i + 1..];
    if DATASET_NODE_KEY_INIT <= children[i] {
      PrepCons(entries, children[i], DataSetKeys(children[i + 1..]));
    }
  }

  lemma PrepCons(entries: seq<string>, key: string, rest: seq<string>)
    requires DATASET_NODE_KEY_INIT <= key && forall i :: 0 <= i < |rest| ==> DATASET_NODE_KEY_INIT <= rest[i]
    ensures entries + PrepEntries([key] + rest) == entries + [key[4..]] + PrepEntries(rest)
  {
    assert PrepEntries([key] + rest) == [key[4..]] + PrepEntries(rest);
  }

  // getPrepDSListEnumStr, on the children of the preparation folder in some order of visit
  method GetPrepDSListEnumStr(children: seq<string>) returns (enumStr: string, any: bool)
    ensures enumStr == EnumText(PrepEntries(DataSetKeys(children)))
    ensures any <==> DataSetKeys(children) != []
  {
    var entries: seq<string> := [];
    var i := 0;
    while i < |children|
      invariant 0 <= i <= |children|
      invariant entries + PrepEntries(DataSetKeys(children[i..])) == PrepEntries(DataSetKeys(children))
    {
      var name := children[i];
      PrepStep(entries, children, i);
      if DATASET_NODE_KEY_INIT <= name {
        entries := entries + [name[4..]];
      }
      i := i + 1;
    }
    assert children[i..] == [];
    assert entries + PrepEntries([]) == entries;
    enumStr, any := EnumStr(entries);
  }

  // Every staged data set has the prefix of data sets, the description beside them has not.
  lemma StagedPrefix(es: seq<Event>, order: seq<string>)
    requires Visits(order, Run(es).staged.Keys + {"desc"})
    ensures Visits(DataSetKeys(order), Run(es).staged.Keys)
  {
    Reachable(es);
    forall k | k in Run(es).staged
      ensures DATASET_NODE_KEY_INIT <= k
    {
      DsKeyMeans(Run(es).staged[k].objref, "");
    }
    assert !(DATASET_NODE_KEY_INIT <= "desc") by {
      assert "desc"[1] != DATASET_NODE_KEY_INIT[1];
    }
  }

  // There is one entry for each key, from which the key can be built again, and the text offers them whole.
  predicate EntriesNameKeys(keys: seq<string>)
    requires forall i :: 0 <= i < |keys| ==> DATASET_NODE_KEY_INIT <= keys[i]
  {
    var entries := PrepEntries(keys);
    && (forall i :: 0 <= i < |keys| ==> DATASET_NODE_KEY_INIT + entries[i] == keys[i])
    && (forall i, j :: 0 <= i < j < |entries| ==> entries[i] != entries[j])
    && OffersWhole(entries)
  }

  lemma NamesKeys(keys: seq<string>)
    requires keys != [] && forall i :: 0 <= i < |keys| ==> DATASET_NODE_KEY_INIT <= keys[i]
    requires forall i, j :: 0 <= i < j < |keys| ==> keys[i] != keys[j]
    ensures EntriesNameKeys(keys)
  {
    OfferedIff(PrepEntries(keys));
    forall i, j | 0 <= i < j < |keys|
      ensures PrepEntries(keys)[i] != PrepEntries(keys)[j]
    {
      assert keys[i] != keys[j];
    }
  }

  // Picking from the staged data sets in a reachable state: there is one entry for each of them, the key built
  // from it is that data set's key, and it is offered whole exactly if it does not contain a comma.
  lemma PickStaged(es: seq<Event>, order: seq<string>)
    requires Visits(order, Run(es).staged.Keys + {"desc"}) && DataSetKeys(order) != []
    ensures Visits(DataSetKeys(order), Run(es).staged.Keys)
    ensures EntriesNameKeys(DataSetKeys(order))
  {
    StagedPrefix(es, order);
    NamesKeys(DataSetKeys(order));
  }

  // Of two states the second has one member key more under one key, if added, and is the same elsewhere.
  predicate ReachesOnly(s: State, t: State, key: string, memberKey: string, added: bool) {
    && key in s.staged && t.created == s.created && t.staged.Keys == s.staged.Keys
    && (forall k :: k in s.staged && k != key ==> t.staged[k] == s.staged[k])
    && t.staged[key].members.Keys == s.staged[key].members.Keys + if added then {memberKey} else {}
  }

  // Adding a member with an entry reaches the data set the entry stands for and no other, unless the entry is empty.
  lemma PickAdds(es: seq<Event>, order: seq<string>, i: nat, entry: string, daRef: string)
    requires Visits(order, Run(es).staged.Keys + {"desc"}) && i < |DataSetKeys(order)|
    requires entry == DataSetKeys(order)[i][4..] && '/' in daRef
    ensures ReachesOnly(Run(es), Run(es + [Event.AddMember(entry, daRef)]), DataSetKeys(order)[i], MemberKey(daRef),
                        entry != "")
  {
    StagedPrefix(es, order);
    assert DATASET_NODE_KEY_INIT + entry == DataSetKeys(order)[i];
    AddReaches(es, DataSetKeys(order)[i], entry, daRef);
  }

  lemma AddReaches(es: seq<Event>, key: string, dsName: string, daRef: string)
    requires key in Run(es).staged && DATASET_NODE_KEY_INIT + dsName == key && '/' in daRef
    ensures ReachesOnly(Run(es), Run(es + [Event.AddMember(dsName, daRef)]), key, MemberKey(daRef), dsName != "")
  {
    var e := Event.AddMember(dsName, daRef);
    assert (es + [e])[..|es + [e]| - 1] == es;
  }

  // ---------------------------------------------------------------- report control blocks

  function RcbEntries(refs: seq<string>): (r: seq<string>)
    ensures |r| == |refs| && forall i :: 0 <= i < |refs| ==> r[i] == Replace(refs[i], '.', '$')
  {
    seq(|refs|, i requires 0 <= i < |refs| => Replace(refs[i], '.', '$'))
  }

  // convertDataSetRef on the tail just appended
  method ConvertDataSetRef(s: string) returns (r: string)
    requires NUL !in s
    ensures r == Replace(s, '.', '$')
  {
    var buf := new char[|s| + 1](i => if 0 <= i < |s| then s[i] else NUL);
    assert buf[..|s|] == s;
    ReplaceEach(buf, '.', '$', |s|);
    r := buf[..|s|];
  }

  // getDataSetListEnumStrForRCB, on the references of the data sets in some order of visit
  method GetDataSetListEnumStrForRCB(refs: seq<string>) returns (enumStr: string, any: bool)
    requires forall i :: 0 <= i < |refs| ==> NUL !in refs[i]
    ensures enumStr == EnumText(RcbEntries(refs))
    ensures any <==> refs != []
  {
    var entries: seq<string> := [];
    var i := 0;
    while i < |refs|
      invariant 0 <= i <= |refs| && entries == RcbEntries(refs[..i])
    {
      var entry := ConvertDataSetRef(refs[i]);
      entries := entries + [entry];
      i := i + 1;
    }
    assert refs[..i] == refs;
    enumStr, any := EnumStr(entries);
  }

  // A reference spelled for a control block is looked up under the key of its data set
  // if and only if it contained no dollar sign of its own.
  lemma LookupFindsKey(dsRef: string)
    ensures LookupKey(Replace(dsRef, '.', '$')) == DsKey(dsRef) <==> '$' !in dsRef
  {
    var picked := Replace(dsRef, '.', '$');
    ReplaceConcat(DATASET_NODE_KEY_INIT, picked, '$', '.');
    var back := Replace(picked, '$', '.');
    assert Replace(DATASET_NODE_KEY_INIT + picked, '$', '.') == DATASET_NODE_KEY_INIT + back;
    ReplaceConcat(DATASET_NODE_KEY_INIT, back, '/', '$');
    ReplaceConcat(DATASET_NODE_KEY_INIT, dsRef, '/', '$');
    ReplaceUndone(dsRef, '.', '$');
    assert LookupKey(picked) == DATASET_NODE_KEY_INIT + Replace(back, '/', '$');
    assert DsKey(dsRef) == DATASET_NODE_KEY_INIT + Replace(dsRef, '/', '$');
    if '$' in dsRef {
      var i :| 0 <= i < |dsRef| && dsRef[i] == '$';
      assert LookupKey(picked)[|DATASET_NODE_KEY_INIT| + i] == '.';
      assert DsKey(dsRef)[|DATASET_NODE_KEY_INIT| + i] == '$';
    }
  }

  // Picking a data set for a control block in a reachable state: there is one entry for each data set on the
  // server, it is offered whole exactly if it does not contain a comma, and looking it up finds the data set it
  // stands for exactly if the reference had no dollar sign.
  lemma PickForRcb(es: seq<Event>, order: seq<string>, refs: seq<string>)
    requires Visits(order, Run(es).created.Keys) && order != [] && |refs| == |order|
    requires forall i :: 0 <= i < |order| ==> refs[i] == Run(es).created[order[i]].objref
    ensures var entries := RcbEntries(refs);
            && OffersWhole(entries)
            && (forall i :: 0 <= i < |entries| ==> (LookupKey(entries[i]) == order[i] <==> '$' !in refs[i]))
            && forall i, j :: 0 <= i < j < |entries| && '$' !in refs[i] && '$' !in refs[j] ==> entries[i] != entries[j]
  {
    var entries := RcbEntries(refs);
    Reachable(es);
    OfferedIff(entries);
    forall i | 0 <= i < |order|
      ensures LookupKey(entries[i]) == order[i] <==> '$' !in refs[i]
    {
      LookupFindsKey(refs[i]);
    }
  }
}
