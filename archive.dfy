/** The payload lookup of `updateApplication` (updater.go:187-203): the entries
    of the downloaded zip archive are scanned in archive order and the first
    whose name starts with the configured prefix and ends with the configured
    suffix is the one installed. Decompression and CRC checks are not part of
    this model: an archive is its list of named byte contents. */
module Archive {
  import opened Wrappers

  newtype byte = b: int | 0 <= b < 256

  /** One file of the archive: its name and its uncompressed content. */
  datatype Entry = Entry(name: string, data: seq<byte>)

  /** Go's `strings.HasPrefix`. */
  predicate HasPrefix(s: string, prefix: string) {
    |prefix| <= |s| && s[..|prefix|] == prefix
  }

  /** Go's `strings.HasSuffix`. */
  predicate HasSuffix(s: string, suffix: string) {
    |suffix| <= |s| && s[|s| - |suffix|..] == suffix
  }

  predicate IsPayload(e: Entry, prefix: string, suffix: string) {
    HasPrefix(e.name, prefix) && HasSuffix(e.name, suffix)
  }

  /** The index of the first entry, in archive order, that is the payload. */
  function FirstPayload(entries: seq<Entry>, prefix: string, suffix: string): (r: Option<nat>)
    ensures r.Some? ==> r.value < |entries| && IsPayload(entries[r.value], prefix, suffix)
    ensures r.Some? ==> forall j :: 0 <= j < r.value ==> !IsPayload(entries[j], prefix, suffix)
    ensures r.None? ==> forall j :: 0 <= j < |entries| ==> !IsPayload(entries[j], prefix, suffix)
  {
    if entries == [] then None
    else if IsPayload(entries[0], prefix, suffix) then Some(0)
    else
      match FirstPayload(entries[1..], prefix, suffix)
      case None => None
      case Some(k) => Some(k + 1)
  }

  /** Whatever follows a matching entry is ignored: appending entries, matching
      or not, to an archive that already holds a payload changes nothing. */
  lemma {:induction false} LaterEntriesIgnored(entries: seq<Entry>, more: seq<Entry>, prefix: string, suffix: string)
    requires FirstPayload(entries, prefix, suffix).Some?
    ensures FirstPayload(entries + more, prefix, suffix) == FirstPayload(entries, prefix, suffix)
  {
    if !IsPayload(entries[0], prefix, suffix) {
      assert (entries + more)[1..] == entries[1..] + more;
      LaterEntriesIgnored(entries[1..], more, prefix, suffix);
    }
  }

  /** Inserting entries that are not payloads in front moves the payload's
      index but not which entry it is. */
  lemma {:induction false} EarlierNonPayloadsSkipped(before: seq<Entry>, entries: seq<Entry>, prefix: string, suffix: string)
    requires forall j :: 0 <= j < |before| ==> !IsPayload(before[j], prefix, suffix)
    ensures FirstPayload(before + entries, prefix, suffix).Some? <==> FirstPayload(entries, prefix, suffix).Some?
    ensures FirstPayload(entries, prefix, suffix).Some? ==>
      FirstPayload(before + entries, prefix, suffix).value == |before| + FirstPayload(entries, prefix, suffix).value
  {
    if before == [] {
      assert before + entries == entries;
    } else {
      assert (before + entries)[1..] == before[1..] + entries;
      EarlierNonPayloadsSkipped(before[1..], entries, prefix, suffix);
    }
  }

  /** The example of an archive holding `build/app-1.2.3.jar`: found with the
      prefix `build/` and the suffix `.jar`, not found with the prefix `other/`. */
  lemma JarExample(data: seq<byte>)
    ensures FirstPayload([Entry("build/app-1.2.3.jar", data)], "build/", ".jar") == Some(0)
    ensures FirstPayload([Entry("build/app-1.2.3.jar", data)], "other/", ".jar") == None
  {
    assert !HasPrefix("build/app-1.2.3.jar", "other/") by {
      assert "build/app-1.2.3.jar"[0] != "other/"[0];
    }
  }
}
