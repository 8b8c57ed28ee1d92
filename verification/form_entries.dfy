/** A submitted form as the action sees it. The browser sends an ordered list
    of (name, value) entries; the action turns it into a plain object with
    `Object.fromEntries`, where a later entry with the same name overwrites an
    earlier one. Reading a name the object lacks gives JavaScript's
    `undefined`, which a template string renders as the text "undefined". */
module FormEntries {

  type Entry = (string, string)
  type Form = map<string, string>

  /** The text JavaScript's template strings produce for a missing field. */
  const Undefined: string := "undefined"

  /** True when no entry after position `i` has the same name as entry `i`. */
  ghost predicate LastWithName(es: seq<Entry>, i: int)
    requires 0 <= i < |es|
  {
    forall j :: i < j < |es| ==> es[j].0 != es[i].0
  }

  /** `Object.fromEntries(formData)`: one key per distinct entry name, holding
      the value of the last entry with that name. */
  function FromEntries(es: seq<Entry>): (f: Form)
    ensures forall i :: 0 <= i < |es| ==> es[i].0 in f
    ensures forall k :: k in f ==> exists i :: 0 <= i < |es| && es[i].0 == k
    decreases |es|
  {
    if |es| == 0 then map[]
    else
      var init := es[..|es| - 1];
      assert forall i :: 0 <= i < |init| ==> init[i] == es[i];
      FromEntries(init)[es[|es| - 1].0 := es[|es| - 1].1]
  }

  /** Each name holds the value of its last entry. */
  lemma {:induction false} LastEntryWins(es: seq<Entry>, i: int)
    requires 0 <= i < |es| && LastWithName(es, i)
    ensures FromEntries(es)[es[i].0] == es[i].1
    decreases |es|
  {
    if i < |es| - 1 {
      var init := es[..|es| - 1];
      assert init[i] == es[i];
      assert LastWithName(init, i) by {
        forall j | i < j < |init|
          ensures init[j].0 != init[i].0
        {
          assert init[j] == es[j];
        }
      }
      LastEntryWins(init, i);
      assert es[|es| - 1].0 != es[i].0;
    }
  }

  /** The value of field `name` as a template string renders it. */
  function FieldText(f: Form, name: string): (s: string)
    ensures name in f ==> s == f[name]
    ensures name !in f ==> s == Undefined
  {
    if name in f then f[name] else Undefined
  }

  /** Reading a field of the submitted entries: "undefined" when no entry has
      that name, else the value of the last entry with that name. */
  lemma FieldTextOfEntries(es: seq<Entry>, name: string)
    ensures (forall i :: 0 <= i < |es| ==> es[i].0 != name) ==> FieldText(FromEntries(es), name) == Undefined
    ensures forall i :: 0 <= i < |es| && es[i].0 == name && LastWithName(es, i) ==>
              FieldText(FromEntries(es), name) == es[i].1
  {
    forall i | 0 <= i < |es| && es[i].0 == name && LastWithName(es, i)
      ensures FieldText(FromEntries(es), name) == es[i].1
    {
      LastEntryWins(es, i);
    }
  }

  /** A form of distinct names keeps every entry's value unchanged. */
  lemma {:induction false} FromDistinctEntries(es: seq<Entry>)
    requires forall i, j :: 0 <= i < j < |es| ==> es[i].0 != es[j].0
    ensures |FromEntries(es)| == |es|
    ensures forall i :: 0 <= i < |es| ==> FromEntries(es)[es[i].0] == es[i].1
    decreases |es|
  {
    if |es| > 0 {
      var init := es[..|es| - 1];
      FromDistinctEntries(init);
      forall i | 0 <= i < |es|
        ensures FromEntries(es)[es[i].0] == es[i].1
      {
        LastEntryWins(es, i);
      }
    }
  }
}
