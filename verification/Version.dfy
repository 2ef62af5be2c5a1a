/** Firmware versions and the comparison that decides whether an offered image is an upgrade. */
module Version {
  import opened Bytes

  const VER_ENTRIES := 4
  const HASH_SIZE := 8

  datatype Version = Version(major: Byte, minor: Byte, patch: Byte, commit: Byte, hash: seq<Byte>) {
    predicate Valid() { |hash| == HASH_SIZE }

    /** The first entries of the union's byte view. */
    function Raw(i: nat): Byte
      requires i < VER_ENTRIES
    {
      [major, minor, patch, commit][i]
    }

    /** The numeric part as one base-256 integer. */
    function Number(): nat {
      ((major as int * 0x100 + minor as int) * 0x100 + patch as int) * 0x100 + commit as int
    }
  }

  /** The outcome from entry `i` on. */
  function CompareFrom(first: Version, second: Version, i: nat): int
    requires i <= VER_ENTRIES
    decreases VER_ENTRIES - i
  {
    if i == VER_ENTRIES then if first.hash == second.hash then 0 else 1
    else if first.Raw(i) > second.Raw(i) then -1
    else if first.Raw(i) == second.Raw(i) then CompareFrom(first, second, i + 1)
    else 1
  }

  function Compare(first: Version, second: Version): int {
    CompareFrom(first, second, 0)
  }

  method VerComp(first: Version, second: Version) returns (result: int)
    ensures result == Compare(first, second)
  {
    var i := 0;
    while i < VER_ENTRIES
      invariant i <= VER_ENTRIES
      invariant CompareFrom(first, second, i) == Compare(first, second)
    {
      if first.Raw(i) > second.Raw(i) {
        return -1;
      } else if first.Raw(i) == second.Raw(i) {
        i := i + 1;
        continue;
      } else {
        return 1;
      }
    }
    return if first.hash != second.hash then 1 else 0;
  }

  /** The numeric part is compared as a number; the hash only breaks ties, and always in favour of the second. */
  lemma CompareIsNumeric(first: Version, second: Version)
    ensures Compare(first, second) == -1 <==> first.Number() > second.Number()
    ensures Compare(first, second) == 0 <==> first.Number() == second.Number() && first.hash == second.hash
    ensures Compare(first, second) == 1 <==>
      first.Number() < second.Number() || (first.Number() == second.Number() && first.hash != second.hash)
  {
    assert first.Raw(0) == first.major && first.Raw(1) == first.minor;
    assert first.Raw(2) == first.patch && first.Raw(3) == first.commit;
    assert second.Raw(0) == second.major && second.Raw(1) == second.minor;
    assert second.Raw(2) == second.patch && second.Raw(3) == second.commit;
    assert Compare(first, second) ==
      if first.major != second.major then (if first.major > second.major then -1 else 1)
      else if first.minor != second.minor then (if first.minor > second.minor then -1 else 1)
      else if first.patch != second.patch then (if first.patch > second.patch then -1 else 1)
      else if first.commit != second.commit then (if first.commit > second.commit then -1 else 1)
      else if first.hash == second.hash then 0 else 1;
  }

  /** A device's successive images: each was judged an upgrade of the one before. */
  ghost predicate Upgrades(images: seq<Version>) {
    forall i {:trigger images[i]} :: 0 < i < |images| ==> Compare(images[i - 1], images[i]) == 1
  }

  /** Over any chain of upgrades the numeric version never goes back, and no image is replaced by itself. */
  lemma {:induction false} UpgradesNeverGoBack(images: seq<Version>, i: nat, j: nat)
    requires Upgrades(images) && i < j < |images|
    ensures images[i].Number() <= images[j].Number()
    ensures j == i + 1 ==> images[i] != images[j]
    decreases j - i
  {
    CompareIsNumeric(images[j - 1], images[j]);
    if i < j - 1 {
      UpgradesNeverGoBack(images, i, j - 1);
    }
  }

  /** Two images are upgrades of each other exactly when only their hashes differ: such a pair can alternate forever. */
  lemma MutualUpgradesIff(a: Version, b: Version)
    ensures Compare(a, b) == 1 && Compare(b, a) == 1 <==> a.Number() == b.Number() && a.hash != b.hash
  {
    CompareIsNumeric(a, b);
    CompareIsNumeric(b, a);
  }
}
