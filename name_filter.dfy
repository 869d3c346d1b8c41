/** The scan callback's device filter (src/services/BLEService.js, the match
    inside `scanForDevices`): a device is taken when it advertises a
    non-empty name whose lower-cased form contains one of five keywords. */
module NameFilter {
  import opened BleTypes
  import opened Ascii

  /** The keywords, in the order the source tests them. */
  const Keywords: seq<string> := ["esp", "u-arm", "uarm", "arduino", "bluetooth"]

  /** `String.prototype.includes`: a search for `k` in `s` from index 0 on. */
  predicate Includes(s: string, k: string)
    ensures Includes(s, k) ==> |k| <= |s|
  {
    IncludesFrom(s, k, 0)
  }

  /** `k` occurs in `s` at index `i` or later. */
  predicate IncludesFrom(s: string, k: string, i: nat)
    ensures IncludesFrom(s, k, i) ==> i + |k| <= |s|
    decreases |s| - i
  {
    i + |k| <= |s| && (s[i..i + |k|] == k || IncludesFrom(s, k, i + 1))
  }

  /** `k` occurs in `s` starting at index `i`. */
  predicate OccursAt(s: string, k: string, i: int) {
    0 <= i && i + |k| <= |s| && s[i..i + |k|] == k
  }

  /** The condition at BLEService.js:189-198, disjunct for disjunct. */
  predicate Accepts(d: Device)
    ensures Accepts(d) ==> d.name.Some? && |d.name.value| >= 3
  {
    && d.name.Some?
    && d.name.value != ""
    && var n := Lower(d.name.value);
       Includes(n, "esp") || Includes(n, "u-arm") || Includes(n, "uarm")
       || Includes(n, "arduino") || Includes(n, "bluetooth")
  }

  /** An occurrence fixes the characters it covers. */
  lemma CharAt(s: string, k: string, i: int, j: int)
    requires OccursAt(s, k, i) && 0 <= j < |k|
    ensures s[i + j] == k[j]
  {
  }

  /** The search from `i` finds exactly the occurrences at `i` or later. */
  lemma {:induction false} IncludesFromIff(s: string, k: string, i: nat)
    ensures IncludesFrom(s, k, i) <==> exists j :: i <= j && OccursAt(s, k, j)
    decreases |s| - i
  {
    if i + |k| <= |s| {
      IncludesFromIff(s, k, i + 1);
      if j :| i <= j && OccursAt(s, k, j) {
        assert j == i || (i + 1 <= j && OccursAt(s, k, j));
      }
      if s[i..i + |k|] == k {
        assert OccursAt(s, k, i);
      }
    } else {
      assert forall j :: i <= j ==> !OccursAt(s, k, j);
    }
  }

  /** `includes` holds exactly when the keyword occurs somewhere. */
  lemma IncludesIff(s: string, k: string)
    ensures Includes(s, k) <==> exists i :: OccursAt(s, k, i)
  {
    IncludesFromIff(s, k, 0);
  }

  /** The filter accepts a device exactly when its name is non-empty and
      one of the keywords occurs somewhere in the lower-cased name. */
  lemma AcceptsIff(d: Device)
    ensures Accepts(d) <==>
      && d.name.Some? && d.name.value != ""
      && exists k, i :: k in Keywords && OccursAt(Lower(d.name.value), k, i)
  {
    if d.name.Some? {
      var n := Lower(d.name.value);
      IncludesIff(n, "esp");
      IncludesIff(n, "u-arm");
      IncludesIff(n, "uarm");
      IncludesIff(n, "arduino");
      IncludesIff(n, "bluetooth");
      if k, i :| k in Keywords && OccursAt(n, k, i) {
        assert k == "esp" || k == "u-arm" || k == "uarm" || k == "arduino" || k == "bluetooth";
      }
    }
  }

  /** Names that agree up to ASCII case are filtered alike. */
  lemma AcceptsIgnoresCase(d: Device, e: Device)
    requires d.name.Some? && e.name.Some?
    requires Lower(d.name.value) == Lower(e.name.value)
    ensures Accepts(d) == Accepts(e)
  {
  }

  /** A device without a name, or with an empty one, is never taken. */
  lemma UnnamedRejected(id: string)
    ensures !Accepts(Device(id, None))
    ensures !Accepts(Device(id, Some("")))
  {
  }

  /** "ESP32-Arm" is taken through the keyword "esp". */
  lemma Esp32ArmAccepted(id: string)
    ensures Accepts(Device(id, Some("ESP32-Arm")))
  {
  }

  /** "MyHeadphones" contains none of the keywords. */
  lemma MyHeadphonesRejected(id: string)
    ensures !Accepts(Device(id, Some("MyHeadphones")))
  {
    assert Lower("MyHeadphones") == "myheadphones";
    AcceptsIff(Device(id, Some("MyHeadphones")));
    var n := "myheadphones";
    forall k, i | k in Keywords && OccursAt(n, k, i)
      ensures false
    {
      CharAt(n, k, i, 0);
      CharAt(n, k, i, 1);
    }
  }
}
