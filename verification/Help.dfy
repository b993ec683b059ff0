/** The help index: a bisection for any keyword that begins with the argument, then a walk
    back to the first one. */
module Help {
  import opened CText
  import opened Collation

  ghost predicate SortedKeys(keys: seq<CString>) {
    forall i, j :: 0 <= i < j < |keys| ==> StrCmp(keys[i], keys[j]) <= 0
  }

  /** The search of do_help: the first keyword that the argument begins, or none if there is none. */
  method Search(table: array<CString>, argument: CString) returns (found: Option<nat>)
    requires SortedKeys(table[..])
    ensures found.Some? ==> found.value < table.Length && Begins(argument, table[found.value])
    ensures found.Some? ==> forall i :: 0 <= i < found.value ==> !Begins(argument, table[i])
    ensures found == None <==> forall i :: 0 <= i < table.Length ==> !Begins(argument, table[i])
  {
    hide StrCmp, StrNCmp, Begins;
    var minlen := |argument|;
    ghost var keys := table[..];
    PrefixFacts(keys, argument);
    var bot, top := 0, table.Length - 1;
    while true
      invariant 0 <= bot <= top + 1 <= table.Length && table[..] == keys
      invariant forall i :: 0 <= i < bot ==> StrNCmp(argument, keys[i], minlen) > 0
      invariant forall i :: top < i < table.Length ==> StrNCmp(argument, keys[i], minlen) < 0
      decreases top - bot + 1
    {
      var mid := Half(bot + top);
      if bot > top {
        return None;
      }
      assert keys[mid] == table[mid];
      var chk := StrNCmp(argument, table[mid], minlen);
      if chk == 0 {
        while mid > 0 && StrNCmp(argument, table[mid - 1], minlen) == 0
          invariant 0 <= mid < table.Length && table[..] == keys && StrNCmp(argument, keys[mid], minlen) == 0
        {
          mid := mid - 1;
        }
        if mid > 0 {
          assert StrNCmp(argument, keys[mid - 1], minlen) > 0;
        }
        return Some(mid);
      } else if chk > 0 {
        bot := mid + 1;
      } else {
        top := mid - 1;
      }
    }
  }

  /** On a sorted table the comparison with a prefix falls from positive through zero to negative,
      and it is zero exactly on the keywords that begin with it. */
  lemma PrefixFacts(keys: seq<CString>, argument: CString)
    requires SortedKeys(keys)
    ensures forall i :: 0 <= i < |keys| ==> (StrNCmp(argument, keys[i], |argument|) == 0 <==> Begins(argument, keys[i]))
    ensures forall i, j :: 0 <= i < j < |keys| && StrNCmp(argument, keys[j], |argument|) > 0 ==>
              StrNCmp(argument, keys[i], |argument|) > 0
    ensures forall i, j :: 0 <= i < j < |keys| && StrNCmp(argument, keys[i], |argument|) < 0 ==>
              StrNCmp(argument, keys[j], |argument|) < 0
  {
    hide StrCmp, StrNCmp, Begins;
    forall i | 0 <= i < |keys| ensures StrNCmp(argument, keys[i], |argument|) == 0 <==> Begins(argument, keys[i]) {
      PrefixCompare(argument, keys[i]);
    }
    forall i, j | 0 <= i < j < |keys|
      ensures StrNCmp(argument, keys[j], |argument|) > 0 ==> StrNCmp(argument, keys[i], |argument|) > 0
      ensures StrNCmp(argument, keys[i], |argument|) < 0 ==> StrNCmp(argument, keys[j], |argument|) < 0
    {
      PrefixMonotone(argument, keys[i], keys[j], |argument|);
    }
  }
}
