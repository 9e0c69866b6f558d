/**
 * dict_diff: the entries of a working dictionary that differ from a
 * reference dictionary.
 */
module Dicts {
  import opened Wrappers

  /** A reference key that the working dictionary lacks. */
  datatype KeyError<K> = KeyError(key: K)

  /**
   * The specification: every key of `reference` whose value in `working`
   * differs, mapped to the working value.
   */
  ghost function Diff<K, V>(reference: map<K, V>, working: map<K, V>): map<K, V>
    requires reference.Keys <= working.Keys
  {
    map k | k in reference && reference[k] != working[k] :: working[k]
  }

  /**
   * The loop over the reference keys. A reference key missing from
   * `working` raises KeyError; otherwise the result holds exactly the keys
   * whose values differ, each with its working value.
   */
  method DictDiff<K, V(==)>(reference: map<K, V>, working: map<K, V>) returns (result: Result<map<K, V>, KeyError<K>>)
    ensures result.Success? <==> reference.Keys <= working.Keys
    ensures result.Failure? ==> result.error.key in reference && result.error.key !in working
    ensures result.Success? ==> forall k ::
      k in result.value <==> k in reference && k in working && reference[k] != working[k]
    ensures result.Success? ==> forall k :: k in result.value ==> k in working && result.value[k] == working[k]
    ensures result.Success? ==> result.value == Diff(reference, working)
  {
    var diff: map<K, V> := map[];
    var remaining := reference.Keys;
    while remaining != {}
      invariant remaining <= reference.Keys
      invariant reference.Keys - remaining <= working.Keys
      invariant forall k :: k in diff <==> k in reference.Keys - remaining && reference[k] != working[k]
      invariant forall k :: k in diff ==> diff[k] == working[k]
      decreases remaining
    {
      var key :| key in remaining;
      if key !in working {
        return Failure(KeyError(key));
      }
      if reference[key] != working[key] {
        diff := diff[key := working[key]];
      }
      remaining := remaining - {key};
    }
    result := Success(diff);
  }

  /** The doctest: only 'foo' changed, so only 'foo' is reported, with its new value. */
  lemma DiffDoctest()
    ensures Diff(map["foo" := "bar", "baz" := "bjonk"], map["foo" := "far", "baz" := "bjonk"])
         == map["foo" := "far"]
  {
    var reference := map["foo" := "bar", "baz" := "bjonk"];
    var working := map["foo" := "far", "baz" := "bjonk"];
    var d := Diff(reference, working);
    assert "foo" in d;
    assert "baz" !in d;
    assert d.Keys == {"foo"};
  }

  /** The doctest stated of DictDiff itself: calling it on the doctest's maps returns {'foo': 'far'}. */
  method DictDiffDoctest() returns (r: Result<map<string, string>, KeyError<string>>)
    ensures r == Success(map["foo" := "far"])
  {
    r := DictDiff(map["foo" := "bar", "baz" := "bjonk"], map["foo" := "far", "baz" := "bjonk"]);
    DiffDoctest();
  }

  /** Writing the diff over the reference reproduces the working values of every reference key. */
  lemma DiffRestoresWorking<K, V>(reference: map<K, V>, working: map<K, V>)
    requires reference.Keys <= working.Keys
    ensures (reference + Diff(reference, working)).Keys == reference.Keys
    ensures forall k :: k in reference ==> (reference + Diff(reference, working))[k] == working[k]
  {
  }

  /** Keys that only `working` has, and working values of unchanged keys, do not matter. */
  lemma DiffIgnoresExtraKeys<K, V>(reference: map<K, V>, working: map<K, V>, working': map<K, V>)
    requires reference.Keys <= working.Keys && reference.Keys <= working'.Keys
    requires forall k :: k in reference ==> working[k] == working'[k]
    ensures Diff(reference, working) == Diff(reference, working')
  {
  }

  /** A dictionary never differs from itself, nor from any extension of itself. */
  lemma DiffOfExtensionEmpty<K, V>(reference: map<K, V>, working: map<K, V>)
    requires reference.Keys <= working.Keys
    requires forall k :: k in reference ==> working[k] == reference[k]
    ensures Diff(reference, working) == map[]
  {
  }
}
