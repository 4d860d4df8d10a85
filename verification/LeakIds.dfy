/** The pool of leaked model ids.  Every pooled text is stored with "-online" behind it,
    so that one allocation serves an id and its online form. */
module LeakIds {
  import opened Wrappers
  import opened ModelIndex

  type Hasher = string -> int

  /** A pooled text and the hash it was filed under. */
  datatype Entry = Entry(hash: int, text: string)

  function Key(s: string): string {
    match StripSuffix(s, ONLINE)
    case Some(x) => x
    case None => s
  }

  predicate IsOnline(s: string) { StripSuffix(s, ONLINE).Some? }

  predicate Found(H: Hasher, pool: set<Entry>, key: string) { Entry(H(key), key) in pool }

  /** The pooled text that `__intern` picks: the stripped key if it is there, and
      otherwise the whole argument, newly stored. */
  function Pick(H: Hasher, pool: set<Entry>, s: string): string {
    if Found(H, pool, Key(s)) then Key(s) else s
  }

  function After(H: Hasher, pool: set<Entry>, s: string): set<Entry> {
    if Found(H, pool, Key(s)) then pool else pool + {Entry(H(Key(s)), s)}
  }

  function InternResult(H: Hasher, pool: set<Entry>, s: string): string {
    if IsOnline(s) then Pick(H, pool, s) + ONLINE else Pick(H, pool, s)
  }

  function AddResult(H: Hasher, pool: set<Entry>, s: string): (string, string) {
    (Pick(H, pool, s) + ONLINE, Pick(H, pool, s))
  }

  class Pool {
    const H: Hasher
    var entries: set<Entry>

    constructor (h: Hasher)
      ensures H == h && entries == {}
    {
      H, entries := h, {};
    }

    /** `__intern`. */
    method Raw(s: string) returns (id: string, isSuffix: bool)
      modifies this
      ensures id == Pick(H, old(entries), s) && isSuffix == IsOnline(s)
      ensures entries == After(H, old(entries), s)
    {
      var stripped := StripSuffix(s, ONLINE);
      var key := if stripped.Some? then stripped.value else s;
      isSuffix := stripped.Some?;
      if Entry(H(key), key) in entries {
        id := key;
      } else {
        entries := entries + {Entry(H(key), s)};
        id := s;
      }
    }

    /** `intern`: the argument itself unless it ends in "-online" and what comes before
        is not pooled. */
    method Intern(s: string) returns (r: string)
      modifies this
      ensures r == s <==> !IsOnline(s) || Found(H, old(entries), Key(s))
      ensures r == s || r == s + ONLINE
      ensures entries == After(H, old(entries), s)
    {
      InternExactly(H, entries, s);
      var id, isSuffix := Raw(s);
      r := if isSuffix then id + ONLINE else id;
    }

    /** `add`: the online form and the argument itself, unless the argument ends in
        "-online" and what comes before is pooled. */
    method Add(s: string) returns (online: string, base: string)
      modifies this
      ensures online == s + ONLINE && base == s <==> !IsOnline(s) || !Found(H, old(entries), Key(s))
      ensures online == base + ONLINE
      ensures entries == After(H, old(entries), s)
    {
      AddExactly(H, entries, s);
      var id, _ := Raw(s);
      online, base := id + ONLINE, id;
    }
  }

  lemma KeyShorter(s: string)
    ensures IsOnline(s) ==> s == Key(s) + ONLINE && |Key(s)| < |s|
    ensures !IsOnline(s) ==> Key(s) == s
  {}

  /** `intern` returns its argument exactly if it does not end in "-online" or what
      comes before is pooled; otherwise it appends the suffix a second time. */
  lemma InternExactly(H: Hasher, pool: set<Entry>, s: string)
    ensures InternResult(H, pool, s) == s <==> !IsOnline(s) || Found(H, pool, Key(s))
    ensures InternResult(H, pool, s) == s || InternResult(H, pool, s) == s + ONLINE
  {
    KeyShorter(s);
    assert |s + ONLINE| > |s|;
  }

  /** `add` returns its argument and the online form of it exactly if the argument does
      not end in "-online" or what comes before is not pooled. */
  lemma AddExactly(H: Hasher, pool: set<Entry>, s: string)
    ensures AddResult(H, pool, s) == (s + ONLINE, s) <==> !IsOnline(s) || !Found(H, pool, Key(s))
  {
    KeyShorter(s);
  }

  /** For an argument that ends in "-online" exactly one of the two is right. */
  lemma NeverBoth(H: Hasher, pool: set<Entry>, s: string)
    requires IsOnline(s)
    ensures InternResult(H, pool, s) == s <==> AddResult(H, pool, s) != (s + ONLINE, s)
  {
    InternExactly(H, pool, s);
    AddExactly(H, pool, s);
  }

  // ----- over every run

  function Runs(H: Hasher, pool: set<Entry>, calls: seq<string>): set<Entry>
    decreases |calls|
  {
    if calls == [] then pool else Runs(H, After(H, pool, calls[0]), calls[1..])
  }

  lemma {:induction false} RunsGrow(H: Hasher, pool: set<Entry>, calls: seq<string>)
    ensures pool <= Runs(H, pool, calls)
    decreases |calls|
  {
    if calls == [] {
    } else {
      RunsGrow(H, After(H, pool, calls[0]), calls[1..]);
    }
  }

  /** Once an id has been pooled under its own name, its online form is interned as
      itself for good, and neither text is allocated again. */
  lemma PooledForGood(H: Hasher, pool: set<Entry>, x: string, calls: seq<string>)
    requires !IsOnline(x)
    ensures var later := Runs(H, After(H, pool, x), calls);
            && InternResult(H, later, x) == x && InternResult(H, later, x + ONLINE) == x + ONLINE
            && After(H, later, x) == later && After(H, later, x + ONLINE) == later
  {
    RunsGrow(H, After(H, pool, x), calls);
    Strips(x, ONLINE);
  }

  /** An online form interned before its base is filed under the hash of the base, so
      the base is still not found and the next call doubles the suffix again. */
  lemma Misfiled(H: Hasher, pool: set<Entry>, x: string)
    requires !Found(H, pool, x)
    ensures var after := After(H, pool, x + ONLINE);
            !Found(H, after, x) && InternResult(H, after, x + ONLINE) == x + ONLINE + ONLINE
  {
    Strips(x, ONLINE);
    assert |x + ONLINE| > |x|;
  }
}
