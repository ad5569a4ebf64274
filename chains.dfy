/**
 * Priority chains. Every annotation lookup of the configuration classes is a
 * nested try/catch that takes the first declaration present: an explicit argument,
 * then the specific annotation, then the general @Configuration one. FirstPresent
 * is the reference definition those lookups are proved against.
 */
module Chains {
  import opened Wrappers

  /** Index of the first present entry, or |chain| when every entry is absent. */
  function FirstIndex<T>(chain: seq<Option<T>>): (i: nat)
    ensures i <= |chain|
    ensures i < |chain| ==> chain[i].Some?
    ensures forall j :: 0 <= j < i ==> chain[j].None?
  {
    if |chain| == 0 || chain[0].Some? then 0 else 1 + FirstIndex(chain[1..])
  }

  /** The first present entry of a chain, or None when every entry is absent. */
  function FirstPresent<T>(chain: seq<Option<T>>): (r: Option<T>)
    ensures r.Some? <==> exists i :: 0 <= i < |chain| && chain[i].Some?
    ensures r.Some? ==> exists i :: 0 <= i < |chain| && chain[i] == r && forall j :: 0 <= j < i ==> chain[j].None?
  {
    var i := FirstIndex(chain);
    if i < |chain| then chain[i] else None
  }

  /** A two-link chain (specific annotation, then @Configuration): the first present link wins. */
  lemma {:induction false} FirstOfTwo<T>(specific: Option<T>, general: Option<T>)
    ensures FirstPresent([specific, general]) == if specific.Some? then specific else general
  {
    var chain := [specific, general];
    if specific.None? {
      assert chain[1..] == [general];
      if general.None? {
        assert chain[1..][1..] == [];
        assert FirstIndex(chain) == 2;
      } else {
        assert FirstIndex(chain) == 1;
      }
    }
  }

  /** A three-link chain (explicit argument, specific annotation, @Configuration). */
  lemma {:induction false} FirstOfThree<T>(explicit: Option<T>, specific: Option<T>, general: Option<T>)
    ensures FirstPresent([explicit, specific, general])
         == if explicit.Some? then explicit else FirstPresent([specific, general])
  {
    var chain := [explicit, specific, general];
    if explicit.None? {
      assert chain[1..] == [specific, general];
    }
  }
}
