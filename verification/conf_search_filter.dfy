/** The search filter of a report (conf/search_filter.go): a record type,
    date constraints and operator-terminated key/value constraints,
    validated and compiled into one query string with a fixed fragment
    order. */
module ConfSearchFilter {
  import opened Results
  import opened Strings
  import opened Ordering
  import opened CalendarDates
  import opened ConfDateFilter

  /** `value` maps a key to one value, `values` maps a key to a list of
      values; a key ends in its query operator (`status:`, `tags>`). */
  datatype SearchFilter = SearchFilter(
    searchType: string,
    dateRange: seq<DateFilter>,
    value: map<string, string>,
    values: map<string, seq<string>>)

  const DefaultType: string := "ticket"

  /** The operators named in the error text. Only the one-character ones can
      ever match, because the check looks at the key's last character. */
  const ValidOperators: seq<string> := [">", ":", "<", ">=", "<="]

  /** keyHasOperator: the key's last character is one of the operators. */
  function KeyHasOperator(key: string): (r: bool)
    requires |key| > 0
    ensures r <==> key[|key| - 1] in {'>', ':', '<'}
  {
    var last := key[|key| - 1..];
    OperatorMatch(last);
    exists i :: 0 <= i < |ValidOperators| && ValidOperators[i] == last
  }

  /** A one-character string equals an operator exactly when it is one of
      the one-character operators. */
  lemma OperatorMatch(last: string)
    requires |last| == 1
    ensures (exists i :: 0 <= i < |ValidOperators| && ValidOperators[i] == last)
            <==> last[0] in {'>', ':', '<'}
  {
    if last[0] in {'>', ':', '<'} {
      var i := if last[0] == '>' then 0 else if last[0] == ':' then 1 else 2;
      assert ValidOperators[i] == last;
    } else {
      forall i | 0 <= i < |ValidOperators|
        ensures ValidOperators[i] != last
      {
        assert i == 0 || i == 1 || i == 2 || i == 3 || i == 4;
      }
    }
  }

  function MissingKey(printed: string): string {
    "Missing key for value '" + printed + "'\n"
  }

  function MissingOperator(key: string): string {
    "The key '" + key + "' is missing an operator" + " as the last character choose one of "
      + Bracketed(ValidOperators) + "\n"
  }

  function MissingValue(key: string): string {
    "The key '" + key + "' has no value to check against\n"
  }

  function MissingValues(key: string): string {
    "The key '" + key + "' has no values to check against\n"
  }

  /** Every message is non-empty and does not start with a newline. */
  predicate IsMessage(m: string) {
    |m| > 0 && m[0] != '\n'
  }

  /** What is wrong with a key: it is missing, or it lacks an operator.
      `printed` is how the entry's value appears in the missing-key text. */
  function KeyMessages(key: string, printed: string): (r: seq<string>)
    ensures forall j :: 0 <= j < |r| ==> IsMessage(r[j])
    ensures r == [] <==> key != "" && KeyHasOperator(key)
    ensures key == "" ==> r == [MissingKey(printed)]
    ensures key != "" && !KeyHasOperator(key) ==> r == [MissingOperator(key)]
  {
    if key == "" then [MissingKey(printed)]
    else if !KeyHasOperator(key) then [MissingOperator(key)]
    else []
  }

  predicate ValueEntryValid(key: string, v: string) {
    key != "" && KeyHasOperator(key) && v != ""
  }

  predicate ValuesEntryValid(key: string, vs: seq<string>) {
    key != "" && KeyHasOperator(key) && |vs| > 0
  }

  /** The missing-value texts differ from both key texts. */
  lemma ValueTextsDistinct(key: string, printed: string)
    ensures MissingValue(key) != MissingKey(printed)
    ensures MissingValue(key) != MissingOperator(key)
    ensures MissingValues(key) != MissingKey(printed)
    ensures MissingValues(key) != MissingOperator(key)
  {
    assert MissingValue(key)[0] == 'T' && MissingValues(key)[0] == 'T' && MissingKey(printed)[0] == 'M';
    OperatorTextDiffers(key);
  }

  lemma OperatorTextDiffers(key: string)
    ensures MissingValue(key) != MissingOperator(key)
    ensures MissingValues(key) != MissingOperator(key)
  {
    var n := |key| + 11;
    var lead := "The key '" + key + "' is missing an operator";
    assert MissingOperator(key) == lead + (" as the last character choose one of " + Bracketed(ValidOperators) + "\n");
    assert lead[n] == 'i';
    assert MissingValue(key)[n] == 'h' && MissingValues(key)[n] == 'h';
  }

  /** The problems of a single-value entry: those of its key first, then
      the missing-value text exactly when the value is empty. */
  function ValueEntryMessages(key: string, v: string): (r: seq<string>)
    ensures forall j :: 0 <= j < |r| ==> IsMessage(r[j])
    ensures r == [] <==> ValueEntryValid(key, v)
    ensures KeyMessages(key, v) <= r && |r| <= |KeyMessages(key, v)| + 1
    ensures MissingValue(key) in r <==> v == ""
  {
    ValueTextsDistinct(key, v);
    KeyMessages(key, v) + (if v == "" then [MissingValue(key)] else [])
  }

  /** The problems of a multi-value entry: those of its key (the list
      printed in brackets), then the missing-values text exactly when the
      list is empty. */
  function ValuesEntryMessages(key: string, vs: seq<string>): (r: seq<string>)
    ensures forall j :: 0 <= j < |r| ==> IsMessage(r[j])
    ensures r == [] <==> ValuesEntryValid(key, vs)
    ensures KeyMessages(key, Bracketed(vs)) <= r && |r| <= |KeyMessages(key, Bracketed(vs))| + 1
    ensures MissingValues(key) in r <==> |vs| == 0
  {
    ValueTextsDistinct(key, Bracketed(vs));
    KeyMessages(key, Bracketed(vs)) + (if |vs| == 0 then [MissingValues(key)] else [])
  }

  /** The messages for the single-value entries, visited in `order`. */
  function ValueMessages(m: map<string, string>, order: seq<string>): (r: seq<string>)
    requires forall k :: k in order ==> k in m
    ensures forall j :: 0 <= j < |r| ==> IsMessage(r[j])
    ensures r == [] <==> forall k :: k in order ==> ValueEntryValid(k, m[k])
  {
    if |order| == 0 then []
    else ValueEntryMessages(order[0], m[order[0]]) + ValueMessages(m, order[1..])
  }

  /** The messages for the multi-value entries, visited in `order`. */
  function ValuesMessages(m: map<string, seq<string>>, order: seq<string>): (r: seq<string>)
    requires forall k :: k in order ==> k in m
    ensures forall j :: 0 <= j < |r| ==> IsMessage(r[j])
    ensures r == [] <==> forall k :: k in order ==> ValuesEntryValid(k, m[k])
  {
    if |order| == 0 then []
    else ValuesEntryMessages(order[0], m[order[0]]) + ValuesMessages(m, order[1..])
  }

  predicate Distinct(order: seq<string>) {
    forall i, j :: 0 <= i < j < |order| ==> order[i] != order[j]
  }

  /** `order` visits every key of the set exactly once: one possible Go map
      iteration order. */
  predicate IsEnumeration(order: seq<string>, keys: set<string>) {
    && (forall k :: k in order ==> k in keys)
    && (forall k :: k in keys ==> k in order)
    && Distinct(order)
  }

  predicate EntriesValid(value: map<string, string>, values: map<string, seq<string>>) {
    && (forall k :: k in value ==> ValueEntryValid(k, value[k]))
    && (forall k :: k in values ==> ValuesEntryValid(k, values[k]))
  }

  lemma NoNewlinesOnlyWhenEmpty(ms: seq<string>)
    requires forall j :: 0 <= j < |ms| ==> IsMessage(ms[j])
    ensures TrimRight(Flatten(ms), '\n') == "" <==> ms == []
  {
    TrimRightEmpty(Flatten(ms), '\n');
    if ms != [] {
      assert Flatten(ms) == ms[0] + Flatten(ms[1..]);
      assert Flatten(ms)[0] == ms[0][0] != '\n';
    }
  }

  /** An entry has a problem exactly when it produces a message. */
  lemma NoMessagesIffValid(
    value: map<string, string>, values: map<string, seq<string>>,
    valueOrder: seq<string>, valuesOrder: seq<string>)
    requires IsEnumeration(valueOrder, value.Keys)
    requires IsEnumeration(valuesOrder, values.Keys)
    ensures ValueMessages(value, valueOrder) + ValuesMessages(values, valuesOrder) == []
        <==> EntriesValid(value, values)
  {
    ValueOrderCoversEntries(value, valueOrder);
    ValuesOrderCoversEntries(values, valuesOrder);
  }

  lemma ValueOrderCoversEntries(value: map<string, string>, order: seq<string>)
    requires IsEnumeration(order, value.Keys)
    ensures ValueMessages(value, order) == [] <==> forall k :: k in value ==> ValueEntryValid(k, value[k])
  {
    assert (forall k :: k in order ==> ValueEntryValid(k, value[k]))
       <==> (forall k :: k in value ==> ValueEntryValid(k, value[k]));
  }

  lemma ValuesOrderCoversEntries(values: map<string, seq<string>>, order: seq<string>)
    requires IsEnumeration(order, values.Keys)
    ensures ValuesMessages(values, order) == [] <==> forall k :: k in values ==> ValuesEntryValid(k, values[k])
  {
    assert (forall k :: k in order ==> ValuesEntryValid(k, values[k]))
       <==> (forall k :: k in values ==> ValuesEntryValid(k, values[k]));
  }

  /** The collected text is empty exactly when every entry is valid. */
  lemma CollectedTextEmptyIffValid(
    value: map<string, string>, values: map<string, seq<string>>,
    valueOrder: seq<string>, valuesOrder: seq<string>)
    requires IsEnumeration(valueOrder, value.Keys)
    requires IsEnumeration(valuesOrder, values.Keys)
    ensures TrimRight(Flatten(ValueMessages(value, valueOrder) + ValuesMessages(values, valuesOrder)), '\n') == ""
        <==> EntriesValid(value, values)
  {
    NoNewlinesOnlyWhenEmpty(ValueMessages(value, valueOrder) + ValuesMessages(values, valuesOrder));
    NoMessagesIffValid(value, values, valueOrder, valuesOrder);
  }

  /** keyValuesValid: every problem of every entry is collected, the
      single-value entries first, the text is trimmed of trailing newlines,
      and there is an error exactly when some entry has a problem. The map
      iteration orders are inputs, because Go leaves them unspecified;
      MessagesCollected says which messages the text is made of. */
  function KeyValuesValid(
    value: map<string, string>, values: map<string, seq<string>>,
    valueOrder: seq<string>, valuesOrder: seq<string>): (r: Option<string>)
    requires IsEnumeration(valueOrder, value.Keys)
    requires IsEnumeration(valuesOrder, values.Keys)
    ensures r.None? <==> EntriesValid(value, values)
    ensures r.Some? ==> r.value != "" && r.value[|r.value| - 1] != '\n'
    ensures r.Some? ==>
      r.value == TrimRight(Flatten(ValueMessages(value, valueOrder) + ValuesMessages(values, valuesOrder)), '\n')
  {
    var ms := ValueMessages(value, valueOrder) + ValuesMessages(values, valuesOrder);
    var text := TrimRight(Flatten(ms), '\n');
    assert text == "" <==> EntriesValid(value, values) by {
      CollectedTextEmptyIffValid(value, values, valueOrder, valuesOrder);
    }
    if text == "" then None else Some(text)
  }

  /** The single-value messages are exactly the messages of the visited
      entries: each entry's messages are all collected, and nothing else is. */
  lemma {:induction false} ValueMessagesCollected(m: map<string, string>, order: seq<string>)
    requires forall k :: k in order ==> k in m
    ensures forall k, x :: k in order && x in ValueEntryMessages(k, m[k]) ==> x in ValueMessages(m, order)
    ensures forall x :: x in ValueMessages(m, order) ==>
              exists k :: k in order && x in ValueEntryMessages(k, m[k])
  {
    if |order| > 0 {
      ValueMessagesCollected(m, order[1..]);
      var e := ValueEntryMessages(order[0], m[order[0]]);
      assert ValueMessages(m, order) == e + ValueMessages(m, order[1..]);
      forall x | x in ValueMessages(m, order)
        ensures exists k :: k in order && x in ValueEntryMessages(k, m[k])
      {
        if x in e {
          assert order[0] in order;
        } else {
          var k :| k in order[1..] && x in ValueEntryMessages(k, m[k]);
          assert k in order;
        }
      }
    }
  }

  /** The same for the multi-value messages. */
  lemma {:induction false} ValuesMessagesCollected(m: map<string, seq<string>>, order: seq<string>)
    requires forall k :: k in order ==> k in m
    ensures forall k, x :: k in order && x in ValuesEntryMessages(k, m[k]) ==> x in ValuesMessages(m, order)
    ensures forall x :: x in ValuesMessages(m, order) ==>
              exists k :: k in order && x in ValuesEntryMessages(k, m[k])
  {
    if |order| > 0 {
      ValuesMessagesCollected(m, order[1..]);
      var e := ValuesEntryMessages(order[0], m[order[0]]);
      assert ValuesMessages(m, order) == e + ValuesMessages(m, order[1..]);
      forall x | x in ValuesMessages(m, order)
        ensures exists k :: k in order && x in ValuesEntryMessages(k, m[k])
      {
        if x in e {
          assert order[0] in order;
        } else {
          var k :| k in order[1..] && x in ValuesEntryMessages(k, m[k]);
          assert k in order;
        }
      }
    }
  }

  /** The messages an error text is made of: every message of every entry
      of both maps, and nothing else. */
  lemma MessagesCollected(
    value: map<string, string>, values: map<string, seq<string>>,
    valueOrder: seq<string>, valuesOrder: seq<string>)
    requires IsEnumeration(valueOrder, value.Keys)
    requires IsEnumeration(valuesOrder, values.Keys)
    ensures forall k, x :: k in value && x in ValueEntryMessages(k, value[k]) ==>
              x in ValueMessages(value, valueOrder) + ValuesMessages(values, valuesOrder)
    ensures forall k, x :: k in values && x in ValuesEntryMessages(k, values[k]) ==>
              x in ValueMessages(value, valueOrder) + ValuesMessages(values, valuesOrder)
    ensures forall x :: x in ValueMessages(value, valueOrder) + ValuesMessages(values, valuesOrder) ==>
              || (exists k :: k in value && x in ValueEntryMessages(k, value[k]))
              || (exists k :: k in values && x in ValuesEntryMessages(k, values[k]))
  {
    ValueMessagesCollected(value, valueOrder);
    ValuesMessagesCollected(values, valuesOrder);
  }

  lemma {:induction false} ValueMessagesAppend(m: map<string, string>, a: seq<string>, b: seq<string>)
    requires forall k :: k in a ==> k in m
    requires forall k :: k in b ==> k in m
    ensures ValueMessages(m, a + b) == ValueMessages(m, a) + ValueMessages(m, b)
  {
    if |a| == 0 {
      assert a + b == b;
    } else {
      assert (a + b)[1..] == a[1..] + b;
      ValueMessagesAppend(m, a[1..], b);
    }
  }

  lemma {:induction false} ValuesMessagesAppend(m: map<string, seq<string>>, a: seq<string>, b: seq<string>)
    requires forall k :: k in a ==> k in m
    requires forall k :: k in b ==> k in m
    ensures ValuesMessages(m, a + b) == ValuesMessages(m, a) + ValuesMessages(m, b)
  {
    if |a| == 0 {
      assert a + b == b;
    } else {
      assert (a + b)[1..] == a[1..] + b;
      ValuesMessagesAppend(m, a[1..], b);
    }
  }

  lemma {:induction false} DistinctCount(order: seq<string>, x: string)
    requires Distinct(order)
    ensures multiset(order)[x] == if x in order then 1 else 0
  {
    if |order| > 0 {
      assert order == [order[0]] + order[1..];
      DistinctCount(order[1..], x);
    }
  }

  /** Two iteration orders over the same keys are permutations of each other. */
  lemma EnumerationsArePermutations(o1: seq<string>, o2: seq<string>, keys: set<string>)
    requires IsEnumeration(o1, keys) && IsEnumeration(o2, keys)
    ensures multiset(o1) == multiset(o2)
  {
    forall x
      ensures multiset(o1)[x] == multiset(o2)[x]
    {
      DistinctCount(o1, x);
      DistinctCount(o2, x);
    }
  }

  /** Takes the first element of `o1` out of its permutation `o2`. */
  lemma PermutationRemove(o1: seq<string>, o2: seq<string>) returns (j: nat)
    requires |o1| > 0 && multiset(o1) == multiset(o2)
    ensures j < |o2| && o2[j] == o1[0]
    ensures o2 == o2[..j] + [o1[0]] + o2[j + 1..]
    ensures multiset(o1[1..]) == multiset(o2[..j] + o2[j + 1..])
  {
    var k := o1[0];
    assert k in multiset(o2);
    j :| 0 <= j < |o2| && o2[j] == k;
    var a, b := o2[..j], o2[j + 1..];
    assert o2 == a + [k] + b;
    assert o1 == [k] + o1[1..];
    calc {
      multiset{k} + multiset(o1[1..]);
      multiset(o1);
      multiset(o2);
      multiset(a + [k] + b);
      multiset(a) + multiset{k} + multiset(b);
    }
    calc {
      multiset(o1[1..]);
      (multiset{k} + multiset(o1[1..])) - multiset{k};
      (multiset(a) + multiset{k} + multiset(b)) - multiset{k};
      multiset(a) + multiset(b);
      multiset(a + b);
    }
  }

  lemma PermutationKeepsMembers<T>(o1: seq<string>, o2: seq<string>, m: map<string, T>)
    requires multiset(o1) == multiset(o2)
    requires forall k :: k in o1 ==> k in m
    ensures forall k :: k in o2 ==> k in m
  {
    forall k | k in o2
      ensures k in m
    {
      assert k in multiset(o1);
    }
  }

  /** Moving one key to the front of an order only reorders the messages. */
  lemma ValueMessagesMoveFront(m: map<string, string>, a: seq<string>, key: string, b: seq<string>)
    requires forall k :: k in a ==> k in m
    requires forall k :: k in b ==> k in m
    requires key in m
    ensures multiset(ValueMessages(m, a + [key] + b))
         == multiset(ValueEntryMessages(key, m[key])) + multiset(ValueMessages(m, a + b))
  {
    var kb := [key] + b;
    assert a + [key] + b == a + kb;
    ValueMessagesAppend(m, a, kb);
    assert kb[0] == key && kb[1..] == b;
    ValueMessagesAppend(m, a, b);
    var e := ValueEntryMessages(key, m[key]);
    var ma, mb := ValueMessages(m, a), ValueMessages(m, b);
    assert ValueMessages(m, kb) == e + mb;
    MultisetMoveFront(ma, e, mb);
  }

  lemma MultisetMoveFront<T>(a: seq<T>, e: seq<T>, b: seq<T>)
    ensures multiset(a + (e + b)) == multiset(e) + multiset(a + b)
  {
  }

  lemma ValuesMessagesMoveFront(m: map<string, seq<string>>, a: seq<string>, key: string, b: seq<string>)
    requires forall k :: k in a ==> k in m
    requires forall k :: k in b ==> k in m
    requires key in m
    ensures multiset(ValuesMessages(m, a + [key] + b))
         == multiset(ValuesEntryMessages(key, m[key])) + multiset(ValuesMessages(m, a + b))
  {
    var kb := [key] + b;
    assert a + [key] + b == a + kb;
    ValuesMessagesAppend(m, a, kb);
    assert kb[0] == key && kb[1..] == b;
    ValuesMessagesAppend(m, a, b);
    var e := ValuesEntryMessages(key, m[key]);
    var ma, mb := ValuesMessages(m, a), ValuesMessages(m, b);
    assert ValuesMessages(m, kb) == e + mb;
    MultisetMoveFront(ma, e, mb);
  }

  lemma {:induction false} ValueMessagesPermutation(m: map<string, string>, o1: seq<string>, o2: seq<string>)
    requires forall k :: k in o1 ==> k in m
    requires multiset(o1) == multiset(o2)
    ensures forall k :: k in o2 ==> k in m
    ensures multiset(ValueMessages(m, o1)) == multiset(ValueMessages(m, o2))
    decreases |o1|
  {
    PermutationKeepsMembers(o1, o2, m);
    if |o1| > 0 {
      var k := o1[0];
      var j := PermutationRemove(o1, o2);
      var a, b := o2[..j], o2[j + 1..];
      ValueMessagesPermutation(m, o1[1..], a + b);
      ValueMessagesMoveFront(m, a, k, b);
    }
  }

  lemma {:induction false} ValuesMessagesPermutation(m: map<string, seq<string>>, o1: seq<string>, o2: seq<string>)
    requires forall k :: k in o1 ==> k in m
    requires multiset(o1) == multiset(o2)
    ensures forall k :: k in o2 ==> k in m
    ensures multiset(ValuesMessages(m, o1)) == multiset(ValuesMessages(m, o2))
    decreases |o1|
  {
    PermutationKeepsMembers(o1, o2, m);
    if |o1| > 0 {
      var k := o1[0];
      var j := PermutationRemove(o1, o2);
      var a, b := o2[..j], o2[j + 1..];
      ValuesMessagesPermutation(m, o1[1..], a + b);
      ValuesMessagesMoveFront(m, a, k, b);
    }
  }

  /** Whatever order Go's map iteration picks, the same messages are
      collected, each as many times: only their order in the text varies. */
  lemma MessagesIndependentOfOrder(
    value: map<string, string>, values: map<string, seq<string>>,
    vo1: seq<string>, vso1: seq<string>, vo2: seq<string>, vso2: seq<string>)
    requires IsEnumeration(vo1, value.Keys) && IsEnumeration(vo2, value.Keys)
    requires IsEnumeration(vso1, values.Keys) && IsEnumeration(vso2, values.Keys)
    ensures multiset(ValueMessages(value, vo1) + ValuesMessages(values, vso1))
         == multiset(ValueMessages(value, vo2) + ValuesMessages(values, vso2))
  {
    EnumerationsArePermutations(vo1, vo2, value.Keys);
    EnumerationsArePermutations(vso1, vso2, values.Keys);
    ValueMessagesPermutation(value, vo1, vo2);
    ValuesMessagesPermutation(values, vso1, vso2);
  }

  /** The first date constraint, in order, that fails validation decides the
      error; later ones are not looked at. */
  function FirstDateError(ds: seq<DateFilter>, allowed: seq<CalendarUnit>): (r: Option<DateFilterError>)
    ensures r.None? <==> forall i :: 0 <= i < |ds| ==> ConfDateFilter.ValidateWithUnits(ds[i], allowed).1.None?
    ensures r.Some? ==>
      exists i :: && 0 <= i < |ds|
                  && ConfDateFilter.ValidateWithUnits(ds[i], allowed).1 == r
                  && forall j :: 0 <= j < i ==> ConfDateFilter.ValidateWithUnits(ds[j], allowed).1.None?
  {
    if |ds| == 0 then None
    else
      var first := ConfDateFilter.ValidateWithUnits(ds[0], allowed).1;
      if first.Some? then first
      else
        var rest := FirstDateError(ds[1..], allowed);
        assert forall i :: 1 <= i < |ds| ==> ds[i] == ds[1..][i - 1];
        if rest.Some? then
          var i :| && 0 <= i < |ds| - 1 && ConfDateFilter.ValidateWithUnits(ds[1..][i], allowed).1 == rest
                   && forall j :: 0 <= j < i ==> ConfDateFilter.ValidateWithUnits(ds[1..][j], allowed).1.None?;
          assert ConfDateFilter.ValidateWithUnits(ds[i + 1], allowed).1 == rest;
          rest
        else rest
  }

  datatype SearchFilterError = DateRangeInvalid(dateError: DateFilterError) | KeyValuesInvalid(text: string) {
    function Message(): string {
      match this
      case DateRangeInvalid(e) => e.Message()
      case KeyValuesInvalid(text) => text
    }
  }

  /** The outcome of the key/value checks as a validation error: the text
      keyValuesValid returns, if any. */
  function KeyValuesOutcome(sf: SearchFilter, valueOrder: seq<string>, valuesOrder: seq<string>)
    : (r: Option<SearchFilterError>)
    requires IsEnumeration(valueOrder, sf.value.Keys)
    requires IsEnumeration(valuesOrder, sf.values.Keys)
    ensures r.None? <==> EntriesValid(sf.value, sf.values)
    ensures r.Some? ==> r.value == KeyValuesInvalid(KeyValuesValid(sf.value, sf.values, valueOrder, valuesOrder).value)
  {
    match KeyValuesValid(sf.value, sf.values, valueOrder, valuesOrder)
    case Some(text) => Some(KeyValuesInvalid(text))
    case None => None
  }

  /** SearchFilter.Validate with the accepted relative units as a parameter.
      The type is forced to "ticket" whatever it held. The date constraints
      are validated on copies, so they come back untouched. A date error
      wins over any key/value problem. */
  function ValidateWithUnits(
    sf: SearchFilter, allowed: seq<CalendarUnit>,
    valueOrder: seq<string>, valuesOrder: seq<string>): (r: (SearchFilter, Option<SearchFilterError>))
    requires IsEnumeration(valueOrder, sf.value.Keys)
    requires IsEnumeration(valuesOrder, sf.values.Keys)
    ensures r.0 == sf.(searchType := DefaultType)
    ensures FirstDateError(sf.dateRange, allowed).Some? ==>
              r.1 == Some(DateRangeInvalid(FirstDateError(sf.dateRange, allowed).value))
    ensures FirstDateError(sf.dateRange, allowed).None? ==>
              r.1 == KeyValuesOutcome(sf, valueOrder, valuesOrder)
    ensures r.1.None? <==>
              (forall i :: 0 <= i < |sf.dateRange| ==> ConfDateFilter.ValidateWithUnits(sf.dateRange[i], allowed).1.None?)
              && EntriesValid(sf.value, sf.values)
  {
    var typed := sf.(searchType := DefaultType);
    match FirstDateError(sf.dateRange, allowed)
    case Some(e) => (typed, Some(DateRangeInvalid(e)))
    case None => (typed, KeyValuesOutcome(sf, valueOrder, valuesOrder))
  }

  /** SearchFilter.Validate of conf/search_filter.go. */
  function Validate(sf: SearchFilter, valueOrder: seq<string>, valuesOrder: seq<string>): (r: (SearchFilter, Option<SearchFilterError>))
    requires IsEnumeration(valueOrder, sf.value.Keys)
    requires IsEnumeration(valuesOrder, sf.values.Keys)
    ensures r.0.searchType == DefaultType
    ensures r.0.dateRange == sf.dateRange && r.0.value == sf.value && r.0.values == sf.values
    ensures FirstDateError(sf.dateRange, ValidCalendarUnits).Some? ==>
              r.1 == Some(DateRangeInvalid(FirstDateError(sf.dateRange, ValidCalendarUnits).value))
    ensures FirstDateError(sf.dateRange, ValidCalendarUnits).None? ==>
              r.1 == KeyValuesOutcome(sf, valueOrder, valuesOrder)
    ensures r.1.None? <==>
              (forall i :: 0 <= i < |sf.dateRange| ==> WellFormed(DefaultAttribute(sf.dateRange[i]), ValidCalendarUnits))
              && EntriesValid(sf.value, sf.values)
  {
    ValidateWithUnits(sf, ValidCalendarUnits, valueOrder, valuesOrder)
  }

  /** A value containing a space is wrapped in double quotes. */
  function Quote(v: string): (r: string)
    ensures ' ' in r <==> ' ' in v
    ensures ' ' in v ==> |r| == |v| + 2 && r[0] == '"' && r[|r| - 1] == '"' && r[1..|r| - 1] == v
    ensures ' ' !in v ==> r == v
  {
    if ' ' in v then "\"" + v + "\"" else v
  }

  /** Removes one pair of surrounding double quotes, if present. */
  function Unquote(s: string): string {
    if |s| >= 2 && s[0] == '"' && s[|s| - 1] == '"' then s[1..|s| - 1] else s
  }

  /** A reader that unquotes exactly the values containing a space gets
      every value back. */
  lemma QuoteRoundTrip(v: string)
    ensures (if ' ' in Quote(v) then Unquote(Quote(v)) else Quote(v)) == v
  {
    if ' ' in v {
      assert Quote(v)[1..|Quote(v)| - 1] == v;
    }
  }

  /** One constraint as it appears in the query: the key, then the value. */
  function Fragment(key: string, v: string): string {
    key + Quote(v)
  }

  /** The fragments of one multi-value entry, in list order. */
  function ValuesFragments(key: string, vs: seq<string>): (r: seq<string>)
    ensures |r| == |vs|
    ensures forall i :: 0 <= i < |vs| ==> r[i] == Fragment(key, vs[i])
  {
    if |vs| == 0 then [] else [Fragment(key, vs[0])] + ValuesFragments(key, vs[1..])
  }

  /** buildValue: each single-value entry in the given key order, each
      followed by a space. */
  function ValueText(m: map<string, string>, keys: seq<string>): string
    requires forall k :: k in keys ==> k in m
  {
    SpaceTerminated(SingleValueFragments(m, keys))
  }

  /** buildValues: for each key, its values space-separated, and a space
      after every key but the last. */
  function ValuesText(m: map<string, seq<string>>, keys: seq<string>): string
    requires forall k :: k in keys ==> k in m
  {
    if |keys| == 0 then ""
    else
      Join(" ", ValuesFragments(keys[0], m[keys[0]]))
        + (if |keys| > 1 then " " else "")
        + ValuesText(m, keys[1..])
  }

  function EffectiveType(sf: SearchFilter): string {
    if sf.searchType == "" then DefaultType else sf.searchType
  }

  /** What SearchFilter.BuildQuery writes after the type. */
  function QueryTail(sf: SearchFilter, now: Date, addDate: AddDate): string {
    " "
      + (if |sf.dateRange| != 0 then DateRangeQuery(sf.dateRange, now, addDate) + " " else "")
      + ValueText(sf.value, SortedKeys(sf.value.Keys))
      + ValuesText(sf.values, SortedKeys(sf.values.Keys))
  }

  /** The buffer SearchFilter.BuildQuery fills before its final trim. */
  function RawQuery(sf: SearchFilter, now: Date, addDate: AddDate): string {
    "type:" + EffectiveType(sf) + QueryTail(sf, now, addDate)
  }

  lemma TrimRightBehindPrefix(p: string, s: string, c: char)
    requires |p| > 0 && p[|p| - 1] != c
    ensures TrimRight(p + s, c) == p + TrimRight(s, c)
  {
    var t := TrimRight(s, c);
    var r := p + t;
    assert r <= p + s;
    forall i | |r| <= i < |p + s|
      ensures (p + s)[i] == c
    {
      assert (p + s)[i] == s[i - |p|];
    }
    TrimRightUnique(p + s, c, r);
  }

  /** SearchFilter.BuildQuery: the type first (defaulted when empty), no
      trailing spaces. */
  function BuildQuery(sf: SearchFilter, now: Date, addDate: AddDate): (r: string)
    ensures "type:" + TrimRight(EffectiveType(sf), ' ') <= r
    ensures r == "" || r[|r| - 1] != ' '
  {
    var t, tail := EffectiveType(sf), QueryTail(sf, now, addDate);
    TrimmedQueryPrefix(t, tail);
    TrimRight("type:" + t + tail, ' ')
  }

  /** Trimming the whole query keeps the trimmed type behind its prefix. */
  lemma TrimmedQueryPrefix(t: string, tail: string)
    ensures "type:" + TrimRight(t, ' ') <= TrimRight("type:" + t + tail, ' ')
  {
    TrimRightAppend("type:" + t, tail, ' ');
    TrimRightBehindPrefix("type:", t, ' ');
  }

  function SingleValueFragments(m: map<string, string>, keys: seq<string>): (r: seq<string>)
    requires forall k :: k in keys ==> k in m
    ensures |r| == |keys|
    ensures forall i :: 0 <= i < |keys| ==> r[i] == Fragment(keys[i], m[keys[i]])
  {
    if |keys| == 0 then [] else [Fragment(keys[0], m[keys[0]])] + SingleValueFragments(m, keys[1..])
  }

  function MultiValueGroups(m: map<string, seq<string>>, keys: seq<string>): (r: seq<seq<string>>)
    requires forall k :: k in keys ==> k in m
    ensures |r| == |keys|
    ensures forall i :: 0 <= i < |keys| ==> r[i] == ValuesFragments(keys[i], m[keys[i]])
  {
    if |keys| == 0 then [] else [ValuesFragments(keys[0], m[keys[0]])] + MultiValueGroups(m, keys[1..])
  }

  /** The type, date and single-value fragments of a query. */
  function LeadingFragments(sf: SearchFilter, now: Date, addDate: AddDate): seq<string> {
    ["type:" + EffectiveType(sf)]
      + DateFragments(sf.dateRange, now, addDate)
      + SingleValueFragments(sf.value, SortedKeys(sf.value.Keys))
  }

  /** Every value of the multi-value entries by ascending key, each prefixed
      by its key and kept in list order. */
  function TrailingFragments(sf: SearchFilter): seq<string> {
    Flatten(MultiValueGroups(sf.values, SortedKeys(sf.values.Keys)))
  }

  /** The fragments of a query in their required order: the type, the date
      constraints in list order, the single-value entries by ascending key,
      then the multi-value entries. */
  function QueryFragments(sf: SearchFilter, now: Date, addDate: AddDate): seq<string> {
    LeadingFragments(sf, now, addDate) + TrailingFragments(sf)
  }

  lemma {:induction false} ValuesTextJoin(m: map<string, seq<string>>, keys: seq<string>)
    requires forall k :: k in keys ==> k in m
    ensures ValuesText(m, keys) == Join(" ", JoinEach(" ", MultiValueGroups(m, keys)))
    decreases |keys|
  {
    if |keys| > 0 {
      ValuesTextJoin(m, keys[1..]);
      assert MultiValueGroups(m, keys)[1..] == MultiValueGroups(m, keys[1..]);
      assert JoinEach(" ", MultiValueGroups(m, keys))[1..] == JoinEach(" ", MultiValueGroups(m, keys[1..]));
    }
  }

  /** The type, the dates and the single values each end with a space. */
  lemma PrefixIsLeadingFragments(sf: SearchFilter, now: Date, addDate: AddDate)
    ensures "type:" + EffectiveType(sf) + " "
              + (if |sf.dateRange| != 0 then DateRangeQuery(sf.dateRange, now, addDate) + " " else "")
              + ValueText(sf.value, SortedKeys(sf.value.Keys))
         == Join(" ", LeadingFragments(sf, now, addDate)) + " "
  {
    var typeFrag := "type:" + EffectiveType(sf);
    var dates := DateFragments(sf.dateRange, now, addDate);
    var singles := SingleValueFragments(sf.value, SortedKeys(sf.value.Keys));
    assert DateRangeQuery(sf.dateRange, now, addDate) == Join(" ", dates);
    HeadJoin(typeFrag, dates);
    SpaceTerminatedJoin([typeFrag] + dates, singles);
  }

  /** The type and the date fragments, each followed by one space. */
  lemma HeadJoin(typeFrag: string, dates: seq<string>)
    ensures typeFrag + " " + (if |dates| != 0 then Join(" ", dates) + " " else "")
         == Join(" ", [typeFrag] + dates) + " "
  {
    if |dates| > 0 {
      JoinAppend(" ", [typeFrag], dates);
    } else {
      assert [typeFrag] + dates == [typeFrag];
    }
  }

  /** Before trimming, the buffer holds the leading fragments, each
      followed by a space, then the multi-value fragments space-separated. */
  lemma RawQueryShape(sf: SearchFilter, now: Date, addDate: AddDate)
    requires forall k :: k in sf.values ==> |sf.values[k]| > 0
    ensures RawQuery(sf, now, addDate)
         == Join(" ", LeadingFragments(sf, now, addDate)) + " " + Join(" ", TrailingFragments(sf))
  {
    var wkeys := SortedKeys(sf.values.Keys);
    var groups := MultiValueGroups(sf.values, wkeys);
    PrefixIsLeadingFragments(sf, now, addDate);
    ValuesTextJoin(sf.values, wkeys);
    forall i | 0 <= i < |groups|
      ensures |groups[i]| > 0
    {
      assert wkeys[i] in wkeys;
    }
    JoinFlatten(" ", groups);
    var datesText := if |sf.dateRange| != 0 then DateRangeQuery(sf.dateRange, now, addDate) + " " else "";
    var single := ValueText(sf.value, SortedKeys(sf.value.Keys));
    var multi := ValuesText(sf.values, wkeys);
    var typeText := "type:" + EffectiveType(sf);
    assert QueryTail(sf, now, addDate) == " " + datesText + single + multi;
    Regroup(typeText, " ", datesText, single, multi);
  }

  lemma Regroup(a: string, b: string, c: string, d: string, e: string)
    ensures a + (b + c + d + e) == (a + b + c + d) + e
  {
  }

  /** When every multi-value list is non-empty (as validation demands), the
      query is exactly the fragments joined by single spaces, right-trimmed. */
  lemma BuildQueryIsJoinedFragments(sf: SearchFilter, now: Date, addDate: AddDate)
    requires forall k :: k in sf.values ==> |sf.values[k]| > 0
    ensures BuildQuery(sf, now, addDate) == TrimRight(Join(" ", QueryFragments(sf, now, addDate)), ' ')
  {
    var lead := LeadingFragments(sf, now, addDate);
    var trail := TrailingFragments(sf);
    RawQueryShape(sf, now, addDate);
    if |trail| == 0 {
      assert lead + trail == lead;
      assert RawQuery(sf, now, addDate) == Join(" ", lead) + [' '];
      TrimRightDropLast(Join(" ", lead), ' ');
    } else {
      assert |lead| > 0;
      JoinAppend(" ", lead, trail);
    }
  }
}
