/**
 * The EDF sound tables of e_sound.c: the sounds hashed by mnemonic and by
 * DeHackEd number (257 chains each), the descending allocator of DeHackEd
 * numbers, the sounds created for wad lumps, the ambience records hashed
 * by index (67 chains), and the name-to-number fallbacks of the EDF
 * processors.
 *
 * The C chains are singly linked through the records' own `next`,
 * `dehnext` and ambience `next` pointers.  Here a record is its index in
 * the table's record store (`sfx`, `amb`), a chain is the sequence of the
 * records it links, head first, and "prepend" is `[id] + chain`.
 * D_HashTableKey is not part of this model: the table is built over any
 * key function that gives names equal up to ASCII case the same key.
 */
module SoundHash {

  datatype Option<T> = None | Some(value: T)

  /** Why an operation stops without finishing. */
  datatype Failure =
    | ChainOutOfRange   // the hash of a negative number indexes outside the chain array
    | ReservedDehnum    // E_AddSoundToDEHHash's fatal error for number zero
    | DehnumAlreadySet  // E_AutoAllocSoundDEHNum called for a sound with a number (RANGECHECK)

  datatype Result<T> = Ok(value: T) | Fail(why: Failure)

  datatype Status = Done | Failed(why: Failure)

  const NUMSFXCHAINS: nat := 257
  const NUMAMBIENCECHAINS: nat := 67
  const D_MAXINT: int := 0x7fff_ffff

  // ---------------------------------------------------------------------
  // C arithmetic and strings

  /** C's `%` on int: the remainder takes the sign of the dividend. */
  function CRem(a: int, m: nat): (r: int)
    requires 0 < m
    ensures -(m as int) < r < m
    ensures a >= 0 ==> r == a % m
    ensures a < 0 ==> r <= 0
  {
    if a >= 0 then a % m else -((-a) % m)
  }

  /** `(unsigned int)(dehnum % NUMSFXCHAINS)`: a negative remainder wraps
      to a value near 2^32. */
  function DehHash(dehnum: int): (h: nat)
    ensures h < NUMSFXCHAINS <==> dehnum >= 0 || CRem(dehnum, NUMSFXCHAINS) == 0
  {
    var r := CRem(dehnum, NUMSFXCHAINS);
    if r >= 0 then r else 0x1_0000_0000 + r
  }

  /** `num % NUMAMBIENCECHAINS`, kept in a signed int. */
  function AmbienceKey(num: int): int {
    CRem(num, NUMAMBIENCECHAINS)
  }

  function Lower(c: char): char {
    if 'A' <= c <= 'Z' then (c as int + 32) as char else c
  }

  /** `strcasecmp(a, b) == 0`. */
  predicate SameName(a: string, b: string) {
    |a| == |b| && forall i :: 0 <= i < |a| ==> Lower(a[i]) == Lower(b[i])
  }

  /** A hash key that `strcasecmp` cannot tell apart from itself. */
  ghost predicate FoldsCase(key: string -> nat) {
    forall a: string, b: string {:trigger SameName(a, b)} :: SameName(a, b) ==> key(a) == key(b)
  }

  // ---------------------------------------------------------------------
  // First match along a chain

  /** The position of the first element of s that `hit` accepts, or |s|:
      the `while(rover && !match) rover = rover->next` walk. */
  function FirstIndex<T>(s: seq<T>, hit: T -> bool): (k: nat)
    ensures k <= |s|
    ensures k < |s| ==> hit(s[k])
    ensures forall j :: 0 <= j < k ==> !hit(s[j])
    decreases |s|
  {
    if s == [] then 0
    else if hit(s[0]) then 0
    else 1 + FirstIndex(s[1..], hit)
  }

  lemma FirstIndexIs<T>(s: seq<T>, hit: T -> bool, k: nat)
    requires k <= |s| && (k < |s| ==> hit(s[k]))
    requires forall j :: 0 <= j < k ==> !hit(s[j])
    ensures FirstIndex(s, hit) == k
  {
  }

  /** Two tests that agree on every element of s find the same one. */
  lemma {:induction false} FirstIndexAgree<T>(s: seq<T>, hit1: T -> bool, hit2: T -> bool)
    requires forall j :: 0 <= j < |s| ==> hit1(s[j]) == hit2(s[j])
    ensures FirstIndex(s, hit1) == FirstIndex(s, hit2)
  {
    var k := FirstIndex(s, hit1);
    FirstIndexIs(s, hit2, k);
  }

  /** The first element of s that `hit` accepts. */
  function First<T>(s: seq<T>, hit: T -> bool): (r: Option<T>)
    ensures r.Some? ==> r.value in s && hit(r.value)
    ensures r.None? <==> forall j :: 0 <= j < |s| ==> !hit(s[j])
  {
    var k := FirstIndex(s, hit);
    if k < |s| then Some(s[k]) else None
  }

  predicate NoDup(s: seq<nat>) {
    forall i, j :: 0 <= i < j < |s| ==> s[i] != s[j]
  }

  // ---------------------------------------------------------------------
  // Sounds

  /** An sfxinfo_t as far as this file sets it; `cached` stands for a
      non-null `data` pointer, `link` for the linked sound. */
  datatype Sfx = Sfx(name: string, mnemonic: string, prefix: bool, singularity: nat, priority: int,
                     link: Option<nat>, pitch: int, volume: int, skinsound: nat, cached: bool,
                     dehackednum: int)

  function NameHit(sfx: seq<Sfx>, name: string): nat -> bool {
    (id: nat) => id < |sfx| && SameName(name, sfx[id].mnemonic)
  }

  function DehHit(sfx: seq<Sfx>, dehnum: int): nat -> bool {
    (id: nat) => id < |sfx| && sfx[id].dehackednum == dehnum
  }

  /** The record E_NewWadSound creates for lump `name`. */
  function WadSound(name: string): (s: Sfx)
    requires 2 <= |name|
    ensures s.mnemonic == name[2..] && s.dehackednum == -1 && !s.cached
  {
    Sfx(name, name[2..], false, 0, 64, None, -1, -1, 0, false, -1)
  }

  /** The DeHackEd chain walk on given tables. */
  function DehFind(sfx: seq<Sfx>, dehchains: seq<seq<nat>>, dehnum: int): Result<Option<nat>> {
    var h := DehHash(dehnum);
    if h >= |dehchains| then Fail(ChainOutOfRange)
    else Ok(First(dehchains[h], DehHit(sfx, dehnum)))
  }

  /** The numbers a lookup finds a sound for (or cannot look up). */
  function Used(sfx: seq<Sfx>, dehchains: seq<seq<nat>>): int -> bool {
    n => DehFind(sfx, dehchains, n) != Ok(None)
  }

  /** Counting down from n past the numbers `used` accepts: the first of
      n, n - 1, ... that is at most 0 or not used. */
  function FreeBelow(used: int -> bool, n: int): int
    decreases n
  {
    if n <= 0 || !used(n) then n else FreeBelow(used, n - 1)
  }

  /** The number found is the highest free one at or below n: every
      number between it and n is used, and it is free unless the count
      ran down to 0. */
  lemma {:induction false} FreeBelowSpec(used: int -> bool, n: int)
    ensures var m := FreeBelow(used, n);
            m <= n && (n > 0 ==> m >= 0) && (m > 0 ==> !used(m)) &&
            forall k :: m < k <= n ==> used(k)
    decreases n
  {
    if n > 0 && used(n) {
      FreeBelowSpec(used, n - 1);
    }
  }

  /** The two sound hash tables, their record store and the DeHackEd
      number allocator.  Record 0 is S_sfx[0], the reserved "none". */
  class SoundTable {
    var sfx: seq<Sfx>
    var chains: seq<seq<nat>>
    var dehchains: seq<seq<nat>>
    var nextDehnum: int
    const key: string -> nat

    /** Every chain links records of the store, once each, all of which
        hash to that chain. */
    ghost predicate Valid()
      reads this`sfx, this`chains, this`dehchains
    {
      |sfx| >= 1 && |chains| == NUMSFXCHAINS && |dehchains| == NUMSFXCHAINS && FoldsCase(key) &&
      (forall h, j :: 0 <= h < |chains| && 0 <= j < |chains[h]| ==>
         chains[h][j] < |sfx| && Bucket(sfx[chains[h][j]].mnemonic) == h) &&
      (forall h, j :: 0 <= h < |dehchains| && 0 <= j < |dehchains[h]| ==>
         dehchains[h][j] < |sfx| && DehHash(sfx[dehchains[h][j]].dehackednum) == h) &&
      (forall h :: 0 <= h < |chains| ==> NoDup(chains[h])) &&
      (forall h :: 0 <= h < |dehchains| ==> NoDup(dehchains[h]))
    }

    /** The tables start empty, and numbers are allocated from D_MAXINT down. */
    constructor (statics: seq<Sfx>, hashKey: string -> nat)
      requires |statics| >= 1 && FoldsCase(hashKey)
      ensures Valid() && sfx == statics && key == hashKey && nextDehnum == D_MAXINT
      ensures forall h :: 0 <= h < NUMSFXCHAINS ==> chains[h] == [] && dehchains[h] == []
    {
      sfx := statics;
      chains := seq(NUMSFXCHAINS, _ => []);
      dehchains := seq(NUMSFXCHAINS, _ => []);
      nextDehnum := D_MAXINT;
      key := hashKey;
    }

    function Bucket(name: string): nat {
      key(name) % NUMSFXCHAINS
    }

    /** What E_SoundForName returns. */
    function Lookup(name: string): Option<nat>
      reads this`sfx, this`chains
    {
      var h := Bucket(name);
      if h < |chains| then First(chains[h], NameHit(sfx, name)) else None
    }

    /** What E_EDFSoundForName returns. */
    function EdfLookup(name: string): Option<nat>
      reads this`sfx, this`chains
    {
      if SameName(name, "none") then Some(0) else Lookup(name)
    }

    /** What E_SoundForDEHNum returns, or the out-of-range read it makes. */
    function DehLookup(dehnum: int): Result<Option<nat>>
      reads this`sfx, this`dehchains
    {
      DehFind(sfx, dehchains, dehnum)
    }

    ghost predicate InUse(dehnum: int)
      reads this`sfx, this`dehchains
    {
      DehLookup(dehnum) != Ok(None)
    }

    /** The number E_AutoAllocSoundDEHNum's do-while stops at when the
        counter holds n. */
    ghost function FreeDehnum(n: int): int
      reads this`sfx, this`dehchains
    {
      FreeBelow(Used(sfx, dehchains), n)
    }

    /** A name lookup finds a sound of that name ignoring case, the first
        one in its chain; it finds none only when no sound linked in any
        chain has that name. */
    lemma LookupSpec(name: string)
      requires Valid()
      ensures match Lookup(name)
              case Some(id) =>
                id < |sfx| && SameName(name, sfx[id].mnemonic) && id in chains[Bucket(name)] &&
                forall j :: 0 <= j < FirstIndex(chains[Bucket(name)], NameHit(sfx, name)) ==>
                  !SameName(name, sfx[chains[Bucket(name)][j]].mnemonic)
              case None =>
                forall h, id: nat :: 0 <= h < |chains| && id in chains[h] ==> !SameName(name, sfx[id].mnemonic)
    {
      var c := chains[Bucket(name)];
      if Lookup(name).None? {
        forall h, id: nat | 0 <= h < |chains| && id in chains[h]
          ensures !SameName(name, sfx[id].mnemonic)
        {
          var j :| 0 <= j < |chains[h]| && chains[h][j] == id;
          assert SameName(name, sfx[id].mnemonic) ==> h == Bucket(name);
          assert h == Bucket(name) ==> !NameHit(sfx, name)(chains[h][j]);
        }
      } else {
        var k := FirstIndex(c, NameHit(sfx, name));
        forall j | 0 <= j < k
          ensures !SameName(name, sfx[c[j]].mnemonic)
        {
          assert !NameHit(sfx, name)(c[j]);
        }
      }
    }

    /** A number lookup fails exactly for the negative numbers whose C
        remainder is not zero; otherwise it finds the first sound with that
        number in its chain, or reports none when no sound linked in any
        chain has that number. */
    lemma DehLookupSpec(dehnum: int)
      requires Valid()
      ensures DehLookup(dehnum).Fail? <==> dehnum < 0 && CRem(dehnum, NUMSFXCHAINS) != 0
      ensures match DehLookup(dehnum)
              case Fail(why) => why == ChainOutOfRange
              case Ok(Some(id)) => id < |sfx| && sfx[id].dehackednum == dehnum && id in dehchains[DehHash(dehnum)]
              case Ok(None) =>
                forall h, id: nat :: 0 <= h < |dehchains| && id in dehchains[h] ==> sfx[id].dehackednum != dehnum
    {
      var h := DehHash(dehnum);
      if DehLookup(dehnum) == Ok(None) {
        var c := dehchains[h];
        forall h', id: nat | 0 <= h' < |dehchains| && id in dehchains[h']
          ensures sfx[id].dehackednum != dehnum
        {
          var j :| 0 <= j < |dehchains[h']| && dehchains[h'][j] == id;
          assert sfx[id].dehackednum == dehnum ==> h' == h;
          assert h' == h ==> !DehHit(sfx, dehnum)(dehchains[h'][j]);
        }
      }
    }

    /** E_SoundForName: walk the name's chain to the first sound whose
        mnemonic matches ignoring case. */
    method SoundForName(name: string) returns (r: Option<nat>)
      requires Valid()
      ensures r == Lookup(name)
    {
      var chain := chains[key(name) % NUMSFXCHAINS];
      var i := 0;
      while i < |chain| && !SameName(name, sfx[chain[i]].mnemonic)
        invariant 0 <= i <= |chain|
        invariant forall j :: 0 <= j < i ==> !NameHit(sfx, name)(chain[j])
      {
        i := i + 1;
      }
      FirstIndexIs(chain, NameHit(sfx, name), i);
      r := if i < |chain| then Some(chain[i]) else None;
    }

    /** E_EDFSoundForName: "none", in any case, is S_sfx[0] whatever the
        tables hold. */
    method EDFSoundForName(name: string) returns (r: Option<nat>)
      requires Valid()
      ensures r == EdfLookup(name)
      ensures SameName(name, "none") ==> r == Some(0)
    {
      if SameName(name, "none") {
        return Some(0);
      }
      r := SoundForName(name);
    }

    /** E_SoundForDEHNum: the chain index is the unsigned remainder, and
        the walk stops at the first sound with that number. */
    method SoundForDEHNum(dehnum: int) returns (r: Result<Option<nat>>)
      requires Valid()
      ensures r == DehLookup(dehnum)
    {
      var hash := DehHash(dehnum);
      if hash >= NUMSFXCHAINS {
        return Fail(ChainOutOfRange);
      }
      var chain := dehchains[hash];
      var i := 0;
      while i < |chain| && sfx[chain[i]].dehackednum != dehnum
        invariant 0 <= i <= |chain|
        invariant forall j :: 0 <= j < i ==> !DehHit(sfx, dehnum)(chain[j])
      {
        i := i + 1;
      }
      FirstIndexIs(chain, DehHit(sfx, dehnum), i);
      r := Ok(if i < |chain| then Some(chain[i]) else None);
    }

    /** E_AddSoundToHash: a sound whose mnemonic is already found (or is
        "none") is ignored; otherwise it is linked at the head of its chain,
        where the next lookup of its mnemonic finds it. */
    method AddSoundToHash(id: nat)
      requires Valid() && id < |sfx|
      modifies this`chains
      ensures Valid()
      ensures var m := sfx[id].mnemonic;
              if old(EdfLookup(m)).Some? then chains == old(chains)
              else chains == old(chains)[Bucket(m) := [id] + old(chains)[Bucket(m)]] && Lookup(m) == Some(id)
    {
      var m := sfx[id].mnemonic;
      var found := EDFSoundForName(m);
      if found.Some? {
        return;
      }
      var hash := key(m) % NUMSFXCHAINS;
      forall j | 0 <= j < |chains[hash]|
        ensures chains[hash][j] != id
      {
        assert !NameHit(sfx, m)(chains[hash][j]);
      }
      chains := chains[hash := [id] + chains[hash]];
      assert NameHit(sfx, m)(chains[hash][0]);
      FirstIndexIs(chains[hash], NameHit(sfx, m), 0);
    }

    /** E_AddSoundToDEHHash: a number already present is ignored, number
        zero is a fatal error, and any other sound is linked at the head of
        chain `dehnum % 257`, where the next lookup of its number finds it. */
    method AddSoundToDEHHash(id: nat) returns (st: Status)
      requires Valid() && id < |sfx|
      modifies this`dehchains
      ensures Valid()
      ensures var d := sfx[id].dehackednum;
              var h := DehHash(d);
              match old(DehLookup(d))
              case Fail(why) => st == Failed(why) && dehchains == old(dehchains)
              case Ok(Some(_)) => st == Done && dehchains == old(dehchains)
              case Ok(None) =>
                if d == 0 then st == Failed(ReservedDehnum) && dehchains == old(dehchains)
                else st == Done && dehchains == old(dehchains)[h := [id] + old(dehchains)[h]] &&
                     DehLookup(d) == Ok(Some(id))
    {
      var d := sfx[id].dehackednum;
      var hash := DehHash(d);
      var found := SoundForDEHNum(d);
      if found.Fail? {
        return Failed(found.why);
      }
      if found.value.Some? {
        return Done;
      }
      if d == 0 {
        return Failed(ReservedDehnum);
      }
      forall j | 0 <= j < |dehchains[hash]|
        ensures dehchains[hash][j] != id
      {
        assert !DehHit(sfx, d)(dehchains[hash][j]);
      }
      dehchains := dehchains[hash := [id] + dehchains[hash]];
      assert DehHit(sfx, d)(dehchains[hash][0]);
      FirstIndexIs(dehchains[hash], DehHit(sfx, d), 0);
      return Done;
    }

    /** The do-while of E_AutoAllocSoundDEHNum: count down from the counter
        past the numbers in use.  The counter ends one below the number
        chosen and never goes up. */
    method NextUnusedDehnum() returns (dehnum: int)
      requires Valid() && nextDehnum > 0
      modifies this`nextDehnum
      ensures dehnum == FreeDehnum(old(nextDehnum)) && nextDehnum == dehnum - 1
    {
      ghost var start := nextDehnum;
      ghost var u := Used(sfx, dehchains);
      dehnum := nextDehnum;
      nextDehnum := nextDehnum - 1;
      var found := SoundForDEHNum(dehnum);
      assert found == DehFind(sfx, dehchains, dehnum);
      var used := found != Ok(None);
      while dehnum > 0 && used
        invariant nextDehnum == dehnum - 1 && 0 <= dehnum <= start
        invariant used == (dehnum > 0 && u(dehnum))
        invariant FreeBelow(u, dehnum) == FreeBelow(u, start)
        decreases dehnum
      {
        dehnum := nextDehnum;
        nextDehnum := nextDehnum - 1;
        if dehnum > 0 {
          found := SoundForDEHNum(dehnum);
          assert found == DehFind(sfx, dehchains, dehnum);
          used := found != Ok(None);
        } else {
          used := false;
        }
      }
    }

    /** E_AutoAllocSoundDEHNum as written: the number found is never
        stored in the sound, so the sound is hashed under its own -1, whose
        chain index `(unsigned)(-1 % 257)` lies outside the table.  Whenever
        a free number exists the call ends in that out-of-range read. */
    method AutoAllocSoundDEHNumAsWritten(id: nat) returns (r: Result<bool>)
      requires Valid() && id < |sfx|
      modifies this`dehchains, this`nextDehnum
      ensures Valid() && dehchains == old(dehchains)
      ensures old(sfx[id].dehackednum) != -1 ==> r == Fail(DehnumAlreadySet) && nextDehnum == old(nextDehnum)
      ensures old(sfx[id].dehackednum) == -1 && old(nextDehnum) <= 0 ==> r == Ok(false) && nextDehnum == old(nextDehnum)
      ensures old(sfx[id].dehackednum) == -1 && old(nextDehnum) > 0 ==>
                var m := old(FreeDehnum(nextDehnum));
                nextDehnum == m - 1 && r == (if m > 0 then Fail(ChainOutOfRange) else Ok(false))
    {
      if sfx[id].dehackednum != -1 {
        return Fail(DehnumAlreadySet);
      }
      if nextDehnum <= 0 {
        return Ok(false);
      }
      FreeBelowSpec(Used(sfx, dehchains), nextDehnum);
      var dehnum := NextUnusedDehnum();
      if dehnum <= 0 {
        return Ok(false);
      }
      assert DehHash(-1) >= NUMSFXCHAINS;
      var st := AddSoundToDEHHash(id);
      if st.Failed? {
        return Fail(st.why);
      }
      return Ok(true);
    }

    /** E_AutoAllocSoundDEHNum with the number stored before hashing: the
        sound gets the highest free number at or below the counter, and a
        lookup of that number then finds it. */
    method AutoAllocSoundDEHNum(id: nat) returns (r: Result<bool>)
      requires Valid() && id < |sfx|
      modifies this`sfx, this`dehchains, this`nextDehnum
      ensures Valid() && chains == old(chains)
      ensures old(sfx[id].dehackednum) != -1 || old(nextDehnum) <= 0 ==>
                sfx == old(sfx) && dehchains == old(dehchains) && nextDehnum == old(nextDehnum) &&
                r == (if old(sfx[id].dehackednum) != -1 then Fail(DehnumAlreadySet) else Ok(false))
      ensures old(sfx[id].dehackednum) == -1 && old(nextDehnum) > 0 ==>
                var m := old(FreeDehnum(nextDehnum));
                nextDehnum == m - 1 &&
                if m > 0 then
                  r == Ok(true) && sfx == old(sfx)[id := old(sfx)[id].(dehackednum := m)] &&
                  dehchains == old(dehchains)[DehHash(m) := [id] + old(dehchains)[DehHash(m)]] &&
                  DehLookup(m) == Ok(Some(id))
                else r == Ok(false) && sfx == old(sfx) && dehchains == old(dehchains)
    {
      if sfx[id].dehackednum != -1 {
        return Fail(DehnumAlreadySet);
      }
      if nextDehnum <= 0 {
        return Ok(false);
      }
      FreeBelowSpec(Used(sfx, dehchains), nextDehnum);
      var dehnum := NextUnusedDehnum();
      if dehnum <= 0 {
        return Ok(false);
      }
      StoreDehnum(id, dehnum);
      var st := AddSoundToDEHHash(id);
      return Ok(true);
    }

    /** `sfx->dehackednum = dehnum` for an unhashed sound and an unused
        positive number: no chain changes, and the number stays unused. */
    method StoreDehnum(id: nat, dehnum: int)
      requires Valid() && id < |sfx| && sfx[id].dehackednum == -1 && dehnum > 0 && !InUse(dehnum)
      modifies this`sfx
      ensures Valid() && sfx == old(sfx)[id := old(sfx)[id].(dehackednum := dehnum)]
      ensures DehLookup(dehnum) == Ok(None)
    {
      ghost var old_sfx := sfx;
      assert forall h :: 0 <= h < |dehchains| ==> id !in dehchains[h];
      sfx := sfx[id := sfx[id].(dehackednum := dehnum)];
      var c := dehchains[DehHash(dehnum)];
      FirstIndexAgree(c, DehHit(old_sfx, dehnum), DehHit(sfx, dehnum));
      forall h, i: nat | 0 <= h < |chains| && i in chains[h]
        ensures Bucket(sfx[i].mnemonic) == h
      {
        assert sfx[i].mnemonic == old_sfx[i].mnemonic;
      }
    }

    /** E_NewWadSound for lump `name` ("DS" and up to six characters): the
        mnemonic drops the two-character prefix.  A sound already found by
        that mnemonic only loses its cached data; otherwise a new sound with
        the wad defaults is stored and linked in. */
    method NewWadSound(name: string)
      requires Valid() && 2 <= |name| <= 8
      modifies this`sfx, this`chains
      ensures Valid() && dehchains == old(dehchains)
      ensures var m := name[2..];
              match old(EdfLookup(m))
              case Some(id) => sfx == old(sfx)[id := old(sfx)[id].(cached := false)] && chains == old(chains)
              case None =>
                sfx == old(sfx) + [WadSound(name)] &&
                chains == old(chains)[Bucket(m) := [|old(sfx)|] + old(chains)[Bucket(m)]] &&
                Lookup(m) == Some(|old(sfx)|)
    {
      var mnemonic := name[2..];
      var found := EDFSoundForName(mnemonic);
      if found.None? {
        AddWadSound(name);
        return;
      }
      Uncache(found.value);
    }

    /** The new-sound half of E_NewWadSound: a record for the lump is
        appended and hashed under its mnemonic. */
    method AddWadSound(name: string)
      requires Valid() && 2 <= |name| <= 8 && EdfLookup(name[2..]).None?
      modifies this`sfx, this`chains
      ensures Valid() && dehchains == old(dehchains) && sfx == old(sfx) + [WadSound(name)]
      ensures chains == old(chains)[Bucket(name[2..]) := [|old(sfx)|] + old(chains)[Bucket(name[2..])]]
      ensures Lookup(name[2..]) == Some(|old(sfx)|)
    {
      var s := WadSound(name);
      assert s.mnemonic == name[2..];
      AppendSound(s);
      assert EdfLookup(s.mnemonic).None?;
      AddSoundToHash(|sfx| - 1);
    }

    /** Freeing a cached sound's data: only its cached flag changes. */
    method Uncache(id: nat)
      requires Valid() && id < |sfx|
      modifies this`sfx
      ensures Valid() && sfx == old(sfx)[id := old(sfx)[id].(cached := false)]
    {
      if sfx[id].cached {
        sfx := sfx[id := sfx[id].(cached := false)];
        assert forall h, i: nat :: 0 <= h < |chains| && i in chains[h] ==> sfx[i].mnemonic == old(sfx)[i].mnemonic;
        assert forall h, i: nat :: 0 <= h < |dehchains| && i in dehchains[h] ==> sfx[i].dehackednum == old(sfx)[i].dehackednum;
      }
    }

    method AppendSound(s: Sfx)
      requires Valid() && s.dehackednum == -1
      modifies this`sfx
      ensures Valid() && sfx == old(sfx) + [s]
      ensures forall name :: EdfLookup(name) == old(EdfLookup(name))
    {
      ghost var old_sfx := sfx;
      sfx := sfx + [s];
      forall name
        ensures EdfLookup(name) == old(EdfLookup(name))
      {
        var c := chains[Bucket(name)];
        FirstIndexAgree(c, NameHit(old_sfx, name), NameHit(sfx, name));
      }
    }
  }

  // ---------------------------------------------------------------------
  // Ambience

  /** An EAmbience_t: `kind` is its type, `sound` the sound it plays. */
  datatype Ambience = Ambience(index: int, kind: nat, sound: Option<nat>, volume: int, attenuation: nat,
                               period: int, minperiod: int, maxperiod: int)

  function IndexHit(amb: seq<Ambience>, num: int): nat -> bool {
    (id: nat) => id < |amb| && amb[id].index == num
  }

  /** The ambience hash table and its record store. */
  class AmbienceTable {
    var amb: seq<Ambience>
    var chains: seq<seq<nat>>

    ghost predicate Valid()
      reads this
    {
      |chains| == NUMAMBIENCECHAINS &&
      (forall k, j :: 0 <= k < |chains| && 0 <= j < |chains[k]| ==>
         chains[k][j] < |amb| && AmbienceKey(amb[chains[k][j]].index) == k) &&
      (forall k :: 0 <= k < |chains| ==> NoDup(chains[k]))
    }

    constructor ()
      ensures Valid() && amb == [] && forall k :: 0 <= k < NUMAMBIENCECHAINS ==> chains[k] == []
    {
      amb := [];
      chains := seq(NUMAMBIENCECHAINS, _ => []);
    }

    /** What E_AmbienceForNum returns, or the read below the chain array a
        negative key makes. */
    function Find(num: int): Result<Option<nat>>
      reads this
      requires Valid()
    {
      var k := AmbienceKey(num);
      if k < 0 then Fail(ChainOutOfRange) else Ok(First(chains[k], IndexHit(amb, num)))
    }

    /** The lookup finds a record with that index, or reports none only
        when no linked record has it. */
    lemma FindSpec(num: int)
      requires Valid()
      ensures Find(num).Fail? <==> num < 0 && CRem(num, NUMAMBIENCECHAINS) != 0
      ensures match Find(num)
              case Fail(why) => why == ChainOutOfRange
              case Ok(Some(id)) => id < |amb| && amb[id].index == num && id in chains[AmbienceKey(num)]
              case Ok(None) => forall k, id: nat :: 0 <= k < |chains| && id in chains[k] ==> amb[id].index != num
    {
      if Find(num) == Ok(None) {
        var c := chains[AmbienceKey(num)];
        forall k, id: nat | 0 <= k < |chains| && id in chains[k]
          ensures amb[id].index != num
        {
          var j :| 0 <= j < |chains[k]| && chains[k][j] == id;
          assert amb[id].index == num ==> k == AmbienceKey(num);
          assert k == AmbienceKey(num) ==> !IndexHit(amb, num)(chains[k][j]);
        }
      }
    }

    /** E_AmbienceForNum: walk chain `num % 67` to the first record with
        that index. */
    method AmbienceForNum(num: int) returns (r: Result<Option<nat>>)
      requires Valid()
      ensures r == Find(num)
    {
      var key := AmbienceKey(num);
      if key < 0 {
        return Fail(ChainOutOfRange);
      }
      var cur := chains[key];
      var i := 0;
      while i < |cur| && amb[cur[i]].index != num
        invariant 0 <= i <= |cur|
        invariant forall j :: 0 <= j < i ==> !IndexHit(amb, num)(cur[j])
      {
        i := i + 1;
      }
      FirstIndexIs(cur, IndexHit(amb, num), i);
      r := Ok(if i < |cur| then Some(cur[i]) else None);
    }

    /** E_AddAmbienceToHash: link a record not yet linked at the head of
        its chain; it is then the one a lookup of its index finds. */
    method AddAmbienceToHash(id: nat) returns (st: Status)
      requires Valid() && id < |amb|
      requires forall k :: 0 <= k < |chains| ==> id !in chains[k]
      modifies this`chains
      ensures Valid()
      ensures var k := AmbienceKey(amb[id].index);
              if k < 0 then st == Failed(ChainOutOfRange) && chains == old(chains)
              else st == Done && chains == old(chains)[k := [id] + old(chains)[k]] &&
                   Find(amb[id].index) == Ok(Some(id))
    {
      var key := AmbienceKey(amb[id].index);
      if key < 0 {
        return Failed(ChainOutOfRange);
      }
      chains := chains[key := [id] + chains[key]];
      assert IndexHit(amb, amb[id].index)(chains[key][0]);
      FirstIndexIs(chains[key], IndexHit(amb, amb[id].index), 0);
      return Done;
    }

    /** The record-finding half of E_ProcessAmbienceSec: the record already
        holding `index` is reused, otherwise a new one is stored and linked.
        Its other fields are left for the caller to set. */
    method RecordFor(index: int) returns (r: Result<nat>)
      requires Valid()
      modifies this
      ensures Valid()
      ensures match old(Find(index))
              case Fail(why) => r == Fail(why) && amb == old(amb) && chains == old(chains)
              case Ok(Some(id0)) => r == Ok(id0) && amb == old(amb) && chains == old(chains)
              case Ok(None) =>
                r == Ok(|old(amb)|) && |amb| == |old(amb)| + 1 && amb[..|old(amb)|] == old(amb) &&
                amb[|old(amb)|].index == index &&
                chains == old(chains)[AmbienceKey(index) := [|old(amb)|] + old(chains)[AmbienceKey(index)]]
      ensures r.Ok? ==> r.value < |amb| && Find(index) == Ok(Some(r.value))
    {
      var found := AmbienceForNum(index);
      if found.Fail? {
        return Fail(found.why);
      }
      if found.value.Some? {
        FindSpec(index);
        return Ok(found.value.value);
      }
      var id := |amb|;
      amb := amb + [Ambience(index, 0, None, 0, 0, 0, 0, 0)];
      assert forall k, j :: 0 <= k < |chains| && 0 <= j < |chains[k]| ==> amb[chains[k][j]] == old(amb)[chains[k][j]];
      var st := AddAmbienceToHash(id);
      return Ok(id);
    }

    /** Overwriting a linked record's fields, its index kept, changes no
        lookup. */
    method SetRecord(id: nat, rec: Ambience)
      requires Valid() && id < |amb| && amb[id].index == rec.index
      modifies this`amb
      ensures Valid() && amb == old(amb)[id := rec]
      ensures forall num :: Find(num) == old(Find(num))
    {
      ghost var before := amb;
      amb := amb[id := rec];
      forall num
        ensures Find(num) == old(Find(num))
      {
        var k := AmbienceKey(num);
        if k >= 0 {
          FirstIndexAgree(chains[k], IndexHit(before, num), IndexHit(amb, num));
        }
      }
    }

    /** Storing a fully read record: the record already holding its index
        is overwritten, otherwise the record is appended and linked. */
    method Define(rec: Ambience) returns (st: Status, id: nat)
      requires Valid()
      modifies this
      ensures Valid()
      ensures old(Find(rec.index)).Fail? ==> st == Failed(ChainOutOfRange) && amb == old(amb) && chains == old(chains)
      ensures old(Find(rec.index)).Ok? ==>
                st == Done && id < |amb| && amb[id] == rec && Find(rec.index) == Ok(Some(id)) &&
                match old(Find(rec.index)).value
                case Some(id0) => id == id0 && amb == old(amb)[id := rec] && chains == old(chains)
                case None =>
                  id == |old(amb)| && amb == old(amb) + [rec] &&
                  chains == old(chains)[AmbienceKey(rec.index) := [id] + old(chains)[AmbienceKey(rec.index)]]
    {
      var r := RecordFor(rec.index);
      if r.Fail? {
        return Failed(r.why), 0;
      }
      id := r.value;
      SetRecord(id, rec);
      st := Done;
    }

    /** E_ProcessAmbienceSec on the values read from one section: the
        record already holding `index` is reused, otherwise a new one is
        stored and linked; then its fields are set, with an unknown type
        taken as continuous, an unknown attenuation as normal and an
        unknown sound left null.  The sound is looked up first here: the
        lookup changes nothing, so the order is not observable. */
    method ProcessAmbienceSec(sounds: SoundTable, index: int, typeName: string, soundName: string,
                              volume: int, attnName: string, period: int, minperiod: int, maxperiod: int)
      returns (st: Status, id: nat)
      requires Valid() && sounds.Valid()
      modifies this
      ensures Valid()
      ensures var rec := Ambience(index, AmbienceType(typeName), sounds.Lookup(soundName), volume,
                                  Attenuation(attnName), period, minperiod, maxperiod);
              (old(Find(index)).Fail? ==> st == Failed(ChainOutOfRange) && amb == old(amb) && chains == old(chains)) &&
              (old(Find(index)).Ok? ==>
                 st == Done && id < |amb| && amb[id] == rec && Find(index) == Ok(Some(id)) &&
                 match old(Find(index)).value
                 case Some(id0) => id == id0 && amb == old(amb)[id := rec] && chains == old(chains)
                 case None =>
                   id == |old(amb)| && amb == old(amb) + [rec] &&
                   chains == old(chains)[AmbienceKey(index) := [id] + old(chains)[AmbienceKey(index)]])
    {
      var sound := sounds.SoundForName(soundName);
      st, id := Define(Ambience(index, AmbienceType(typeName), sound, volume, Attenuation(attnName),
                                period, minperiod, maxperiod));
    }
  }

  // ---------------------------------------------------------------------
  // Name-to-number fallbacks

  const SINGULARITIES: seq<string> := ["sg_none", "sg_itemup", "sg_wpnup", "sg_oof", "sg_getpow"]
  const SKININDICES: seq<string> :=
    ["sk_none", "sk_plpain", "sk_pdiehi", "sk_oof", "sk_slop", "sk_punch",
     "sk_radio", "sk_pldeth", "sk_plfall", "sk_plfeet", "sk_fallht"]
  const AMBIENCE_TYPES: seq<string> := ["continuous", "periodic", "random"]
  const ATTENUATION_TYPES: seq<string> := ["normal", "idle", "static", "none"]
  const ATTN_NORMAL: nat := 0

  /** E_StrToNumLinear: the position of the first table entry equal to s
      ignoring case, or the table's size. */
  function StrToNumLinear(table: seq<string>, s: string): nat {
    FirstIndex(table, t => SameName(t, s))
  }

  /** The lookups of E_ProcessSound and E_ProcessAmbienceSec: a name not in
      the table falls back to `fallback`. */
  function NumOrDefault(table: seq<string>, s: string, fallback: nat): nat {
    var n := StrToNumLinear(table, s);
    if n == |table| then fallback else n
  }

  /** A known name maps to the position of its first entry, an unknown one
      to the fallback; the result is always a valid position when the
      fallback is. */
  lemma NumOrDefaultSpec(table: seq<string>, s: string, fallback: nat)
    ensures var r := NumOrDefault(table, s, fallback);
            ((exists i :: 0 <= i < |table| && SameName(table[i], s)) ==>
               r < |table| && SameName(table[r], s) && forall j :: 0 <= j < r ==> !SameName(table[j], s)) &&
            ((forall i :: 0 <= i < |table| ==> !SameName(table[i], s)) ==> r == fallback) &&
            (fallback < |table| ==> r < |table|)
  {
    var hit := (t: string) => SameName(t, s);
    var n := FirstIndex(table, hit);
    if n == |table| {
      forall i | 0 <= i < |table|
        ensures !SameName(table[i], s)
      {
        assert !hit(table[i]);
      }
    } else {
      assert hit(table[n]);
      forall j | 0 <= j < n
        ensures !SameName(table[j], s)
      {
        assert !hit(table[j]);
      }
    }
  }

  /** `singularity`: an unknown name is sg_none. */
  function Singularity(s: string): (r: nat)
    ensures r < |SINGULARITIES|
  {
    NumOrDefaultSpec(SINGULARITIES, s, 0);
    NumOrDefault(SINGULARITIES, s, 0)
  }

  /** `skinindex`: an unknown name is sk_none. */
  function SkinIndex(s: string): (r: nat)
    ensures r < |SKININDICES|
  {
    NumOrDefaultSpec(SKININDICES, s, 0);
    NumOrDefault(SKININDICES, s, 0)
  }

  /** An ambience `type`: an unknown name is continuous. */
  function AmbienceType(s: string): (r: nat)
    ensures r < |AMBIENCE_TYPES|
  {
    NumOrDefaultSpec(AMBIENCE_TYPES, s, 0);
    NumOrDefault(AMBIENCE_TYPES, s, 0)
  }

  /** An ambience `attenuation`: an unknown name is ATTN_NORMAL. */
  function Attenuation(s: string): (r: nat)
    ensures r < |ATTENUATION_TYPES|
  {
    NumOrDefaultSpec(ATTENUATION_TYPES, s, ATTN_NORMAL);
    NumOrDefault(ATTENUATION_TYPES, s, ATTN_NORMAL)
  }
}
