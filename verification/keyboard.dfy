/**
 * `keyboard` (keyboard.hpp, impl/keyboard.cpp): the table of key names and
 * their hashes, and the per-key state array kept in step with the combo of
 * keys that are down.
 */
module Keyboards {
  import opened Util
  import opened KeyCodes
  import opened KeyCombos

  // ---------------------------------------------------------------------------
  // Key names
  // ---------------------------------------------------------------------------

  /** The keys `init_maps` registers, in its order. */
  const KEY_CODES: seq<Keycode> :=
    [NUM_0, NUM_1, NUM_2, NUM_3, NUM_4, NUM_5, NUM_6, NUM_7, NUM_8, NUM_9, LEFT, RIGHT, UP, DOWN, SPACE]

  /** Their names: the macro stringizes the enumerator as written, `KEY::X`. */
  const KEY_NAMES: seq<string> :=
    [ "KEY::NUM_0", "KEY::NUM_1", "KEY::NUM_2", "KEY::NUM_3", "KEY::NUM_4"
    , "KEY::NUM_5", "KEY::NUM_6", "KEY::NUM_7", "KEY::NUM_8", "KEY::NUM_9"
    , "KEY::LEFT", "KEY::RIGHT", "KEY::UP", "KEY::DOWN", "KEY::SPACE"
    ]

  /** The 64-bit hash of each name of the table, in the same order. */
  const KEY_HASHES: seq<Hash> :=
    [ 0x726bc2fff2ee0b2b
    , 0x726bc2fff2ee0b2a
    , 0x726bc2fff2ee0b29
    , 0x726bc2fff2ee0b28
    , 0x726bc2fff2ee0b2f
    , 0x726bc2fff2ee0b2e
    , 0x726bc2fff2ee0b2d
    , 0x726bc2fff2ee0b2c
    , 0x726bc2fff2ee0b23
    , 0x726bc2fff2ee0b22
    , 0x377a10f837f1249
    , 0x726bc2fff102eef2
    , 0xd0a98169e3f7
    , 0x377a10f837ab620
    , 0x726bc2fff116a576
    ]

  /** The hash word after the common prefix "KEY::". */
  const KEY_PREFIX_HASH: Hash := 0x310d488052
  /** The hash word after the common prefix "KEY::NUM_". */
  const NUM_PREFIX_HASH: Hash := 0x377a10f837b93bb

  /** The string literal the macro produces: its characters, then a NUL. */
  function NameRef(name: string): StringRef
  {
    StringRef(name + [NUL], |name|)
  }

  /** A default-constructed `string_ref{}`: no storage and length 0. */
  const EMPTY_REF: StringRef := StringRef([], 0)

  /** The loop over the common prefix "KEY::". */
  lemma KeyPrefix(rest: seq<bv8>)
    ensures HashFrom(HASH_SEED, [75, 69, 89, 58, 58] + rest) == HashFrom(KEY_PREFIX_HASH, rest)
  {
    HashAppend(HASH_SEED, [75, 69, 89, 58, 58], rest);
    HashCons(0x1505, 75, [69, 89, 58, 58]);
    HashCons(0x2b5ee, 69, [89, 58, 58]);
    HashCons(0x5973eb, 89, [58, 58]);
    HashCons(0xb87f112, 58, [58]);
    HashCons(0x17c861368, 58, []);
  }

  /** The loop over the common prefix "KEY::NUM_". */
  lemma NumPrefix(rest: seq<bv8>)
    ensures HashFrom(HASH_SEED, [75, 69, 89, 58, 58, 78, 85, 77, 95] + rest) == HashFrom(NUM_PREFIX_HASH, rest)
  {
    var r3, r2, r1 := [95] + rest, [77, 95] + rest, [85, 77, 95] + rest;
    assert [85] + r2 == r1 && [77] + r3 == r2;
    assert [75, 69, 89, 58, 58, 78, 85, 77, 95] + rest == [75, 69, 89, 58, 58] + ([78] + r1);
    KeyPrefix([78] + r1);
    HashCons(KEY_PREFIX_HASH, 78, r1);
    HashCons(0x652b6588adc, 85, r2);
    HashCons(0xd0a98169e609, 77, r3);
    HashCons(0x1ae5d9aea6a764, 95, rest);
  }

  /** The bytes of "KEY::". */
  lemma KeyBytes()
    ensures IsByteString("KEY::") && Bytes("KEY::") == [75, 69, 89, 58, 58]
  {
    BytesOf("KEY::", [75, 69, 89, 58, 58]);
  }

  /** The bytes of "KEY::NUM_". */
  lemma NumBytes()
    ensures IsByteString("KEY::NUM_") && Bytes("KEY::NUM_") == [75, 69, 89, 58, 58, 78, 85, 77, 95]
  {
    BytesOf("KEY::NUM_", [75, 69, 89, 58, 58, 78, 85, 77, 95]);
  }

  /** A name "KEY::NUM_d" hashes to one step past the common prefix. */
  lemma NumNameHash(c: char, d: bv8)
    requires c as int == d as int && d != 0
    ensures IsByteString("KEY::NUM_" + [c]) && HashString("KEY::NUM_" + [c]) == HashStep(NUM_PREFIX_HASH, d)
  {
    NumBytes();
    var name := "KEY::NUM_" + [c];
    assert name + [NUL] == "KEY::NUM_" + [c, NUL];
    BytesOf([c, NUL], [d, 0]);
    BytesAppend("KEY::NUM_", [c, NUL]);
    HashStringBytes(name, [75, 69, 89, 58, 58, 78, 85, 77, 95, d, 0]);
    assert [75, 69, 89, 58, 58, 78, 85, 77, 95, d, 0] == [75, 69, 89, 58, 58, 78, 85, 77, 95] + [d, 0];
    NumPrefix([d, 0]);
    HashCons(NUM_PREFIX_HASH, d, [0]);
  }

  /** A name "KEY::X" hashes as the loop over X started after the common prefix. */
  lemma KeyNameHash(tail: string, rest: seq<bv8>)
    requires IsByteString(tail + [NUL]) && Bytes(tail + [NUL]) == rest
    ensures IsByteString("KEY::" + tail) && HashString("KEY::" + tail) == HashFrom(KEY_PREFIX_HASH, rest)
  {
    KeyBytes();
    var name := "KEY::" + tail;
    assert name + [NUL] == "KEY::" + (tail + [NUL]);
    BytesAppend("KEY::", tail + [NUL]);
    HashStringBytes(name, [75, 69, 89, 58, 58] + rest);
    KeyPrefix(rest);
  }

  lemma HashNum0()
    ensures IsByteString("KEY::NUM_0") && HashString("KEY::NUM_0") == 0x726bc2fff2ee0b2b
  {
    NumNameHash('0', 48);
    assert "KEY::NUM_0" == "KEY::NUM_" + ['0'];
  }

  lemma HashNum1()
    ensures IsByteString("KEY::NUM_1") && HashString("KEY::NUM_1") == 0x726bc2fff2ee0b2a
  {
    NumNameHash('1', 49);
    assert "KEY::NUM_1" == "KEY::NUM_" + ['1'];
  }

  lemma HashNum2()
    ensures IsByteString("KEY::NUM_2") && HashString("KEY::NUM_2") == 0x726bc2fff2ee0b29
  {
    NumNameHash('2', 50);
    assert "KEY::NUM_2" == "KEY::NUM_" + ['2'];
  }

  lemma HashNum3()
    ensures IsByteString("KEY::NUM_3") && HashString("KEY::NUM_3") == 0x726bc2fff2ee0b28
  {
    NumNameHash('3', 51);
    assert "KEY::NUM_3" == "KEY::NUM_" + ['3'];
  }

  lemma HashNum4()
    ensures IsByteString("KEY::NUM_4") && HashString("KEY::NUM_4") == 0x726bc2fff2ee0b2f
  {
    NumNameHash('4', 52);
    assert "KEY::NUM_4" == "KEY::NUM_" + ['4'];
  }

  lemma HashNum5()
    ensures IsByteString("KEY::NUM_5") && HashString("KEY::NUM_5") == 0x726bc2fff2ee0b2e
  {
    NumNameHash('5', 53);
    assert "KEY::NUM_5" == "KEY::NUM_" + ['5'];
  }

  lemma HashNum6()
    ensures IsByteString("KEY::NUM_6") && HashString("KEY::NUM_6") == 0x726bc2fff2ee0b2d
  {
    NumNameHash('6', 54);
    assert "KEY::NUM_6" == "KEY::NUM_" + ['6'];
  }

  lemma HashNum7()
    ensures IsByteString("KEY::NUM_7") && HashString("KEY::NUM_7") == 0x726bc2fff2ee0b2c
  {
    NumNameHash('7', 55);
    assert "KEY::NUM_7" == "KEY::NUM_" + ['7'];
  }

  lemma HashNum8()
    ensures IsByteString("KEY::NUM_8") && HashString("KEY::NUM_8") == 0x726bc2fff2ee0b23
  {
    NumNameHash('8', 56);
    assert "KEY::NUM_8" == "KEY::NUM_" + ['8'];
  }

  lemma HashNum9()
    ensures IsByteString("KEY::NUM_9") && HashString("KEY::NUM_9") == 0x726bc2fff2ee0b22
  {
    NumNameHash('9', 57);
    assert "KEY::NUM_9" == "KEY::NUM_" + ['9'];
  }

  /** The loop over "LEFT" and its NUL, after the common prefix. */
  lemma LeftTail()
    ensures HashFrom(KEY_PREFIX_HASH, [76, 69, 70, 84, 0]) == 0x377a10f837f1249
  {
    HashCons(0x310d488052, 76, [69, 70, 84, 0]);
    HashCons(0x652b6588ade, 69, [70, 84, 0]);
    HashCons(0xd0a98169e6db, 70, [84, 0]);
    HashCons(0x1ae5d9aea6c27d, 84, [0]);
  }

  lemma HashLeft()
    ensures IsByteString("KEY::LEFT") && HashString("KEY::LEFT") == 0x377a10f837f1249
  {
    BytesOf("LEFT" + [NUL], [76, 69, 70, 84, 0]);
    KeyNameHash("LEFT", [76, 69, 70, 84, 0]);
    assert "KEY::LEFT" == "KEY::" + "LEFT";
    LeftTail();
  }

  /** The loop over "RIGHT" and its NUL, after the common prefix. */
  lemma RightTail()
    ensures HashFrom(KEY_PREFIX_HASH, [82, 73, 71, 72, 84, 0]) == 0x726bc2fff102eef2
  {
    HashCons(0x310d488052, 82, [73, 71, 72, 84, 0]);
    HashCons(0x652b6588ac0, 73, [71, 72, 84, 0]);
    HashCons(0xd0a98169e289, 71, [72, 84, 0]);
    HashCons(0x1ae5d9aea633ee, 72, [84, 0]);
    HashCons(0x377a10f836cb1e6, 84, [0]);
  }

  lemma HashRight()
    ensures IsByteString("KEY::RIGHT") && HashString("KEY::RIGHT") == 0x726bc2fff102eef2
  {
    BytesOf("RIGHT" + [NUL], [82, 73, 71, 72, 84, 0]);
    KeyNameHash("RIGHT", [82, 73, 71, 72, 84, 0]);
    assert "KEY::RIGHT" == "KEY::" + "RIGHT";
    RightTail();
  }

  /** The loop over "UP" and its NUL, after the common prefix. */
  lemma UpTail()
    ensures HashFrom(KEY_PREFIX_HASH, [85, 80, 0]) == 0xd0a98169e3f7
  {
    HashCons(0x310d488052, 85, [80, 0]);
    HashCons(0x652b6588ac7, 80, [0]);
  }

  lemma HashUp()
    ensures IsByteString("KEY::UP") && HashString("KEY::UP") == 0xd0a98169e3f7
  {
    BytesOf("UP" + [NUL], [85, 80, 0]);
    KeyNameHash("UP", [85, 80, 0]);
    assert "KEY::UP" == "KEY::" + "UP";
    UpTail();
  }

  /** The loop over "DOWN" and its NUL, after the common prefix. */
  lemma DownTail()
    ensures HashFrom(KEY_PREFIX_HASH, [68, 79, 87, 78, 0]) == 0x377a10f837ab620
  {
    HashCons(0x310d488052, 68, [79, 87, 78, 0]);
    HashCons(0x652b6588ad6, 79, [87, 78, 0]);
    HashCons(0xd0a98169e5d9, 87, [78, 0]);
    HashCons(0x1ae5d9aea6a0ae, 78, [0]);
  }

  lemma HashDown()
    ensures IsByteString("KEY::DOWN") && HashString("KEY::DOWN") == 0x377a10f837ab620
  {
    BytesOf("DOWN" + [NUL], [68, 79, 87, 78, 0]);
    KeyNameHash("DOWN", [68, 79, 87, 78, 0]);
    assert "KEY::DOWN" == "KEY::" + "DOWN";
    DownTail();
  }

  /** The loop over "SPACE" and its NUL, after the common prefix. */
  lemma SpaceTail()
    ensures HashFrom(KEY_PREFIX_HASH, [83, 80, 65, 67, 69, 0]) == 0x726bc2fff116a576
  {
    HashCons(0x310d488052, 83, [80, 65, 67, 69, 0]);
    HashCons(0x652b6588ac1, 80, [65, 67, 69, 0]);
    HashCons(0xd0a98169e2b1, 65, [67, 69, 0]);
    HashCons(0x1ae5d9aea63890, 67, [69, 0]);
    HashCons(0x377a10f836d4ad3, 69, [0]);
  }

  lemma HashSpace(name: string)
    requires name == "KEY::SPACE"
    ensures IsByteString(name) && HashString(name) == 0x726bc2fff116a576
  {
    BytesOf("SPACE" + [NUL], [83, 80, 65, 67, 69, 0]);
    KeyNameHash("SPACE", [83, 80, 65, 67, 69, 0]);
    assert name == "KEY::" + "SPACE";
    SpaceTail();
  }

  /** Name `i` is a NUL-free byte string that hashes to `KEY_HASHES[i]`. */
  lemma EntryHash(i: nat)
    requires i < |KEY_NAMES|
    ensures IsByteString(KEY_NAMES[i]) && HasNoNul(KEY_NAMES[i])
    ensures HashString(KEY_NAMES[i]) == KEY_HASHES[i]
  {
    if i < 10 {
      NumEntryHash(i);
    } else {
      NamedEntryHash(i);
    }
  }

  /** The entries "KEY::NUM_0" .. "KEY::NUM_9". */
  lemma NumEntryHash(i: nat)
    requires i < 10
    ensures IsByteString(KEY_NAMES[i]) && HasNoNul(KEY_NAMES[i])
    ensures HashString(KEY_NAMES[i]) == KEY_HASHES[i]
  {
    if i == 0 {
      assert KEY_NAMES[i] == "KEY::NUM_0";
      HashNum0();
    } else if i == 1 {
      assert KEY_NAMES[i] == "KEY::NUM_1";
      HashNum1();
    } else if i == 2 {
      assert KEY_NAMES[i] == "KEY::NUM_2";
      HashNum2();
    } else if i == 3 {
      assert KEY_NAMES[i] == "KEY::NUM_3";
      HashNum3();
    } else if i == 4 {
      assert KEY_NAMES[i] == "KEY::NUM_4";
      HashNum4();
    } else if i == 5 {
      assert KEY_NAMES[i] == "KEY::NUM_5";
      HashNum5();
    } else if i == 6 {
      assert KEY_NAMES[i] == "KEY::NUM_6";
      HashNum6();
    } else if i == 7 {
      assert KEY_NAMES[i] == "KEY::NUM_7";
      HashNum7();
    } else if i == 8 {
      assert KEY_NAMES[i] == "KEY::NUM_8";
      HashNum8();
    } else {
      assert KEY_NAMES[i] == "KEY::NUM_9";
      HashNum9();
    }
  }

  /** The entries "KEY::LEFT" .. "KEY::SPACE". */
  lemma NamedEntryHash(i: nat)
    requires 10 <= i < |KEY_NAMES|
    ensures IsByteString(KEY_NAMES[i]) && HasNoNul(KEY_NAMES[i])
    ensures HashString(KEY_NAMES[i]) == KEY_HASHES[i]
  {
    if i == 10 {
      assert KEY_NAMES[i] == "KEY::LEFT";
      HashLeft();
    } else if i == 11 {
      assert KEY_NAMES[i] == "KEY::RIGHT";
      HashRight();
    } else if i == 12 {
      assert KEY_NAMES[i] == "KEY::UP";
      HashUp();
    } else if i == 13 {
      assert KEY_NAMES[i] == "KEY::DOWN";
      HashDown();
    } else {
      assert KEY_NAMES[i] == "KEY::SPACE";
      HashSpace(KEY_NAMES[i]);
    }
  }

  /** The three tables line up, and every name hashes to its entry of `KEY_HASHES`. */
  lemma KeyTableHashes()
    ensures |KEY_CODES| == |KEY_NAMES| == |KEY_HASHES|
    ensures forall i | 0 <= i < |KEY_NAMES| :: IsByteString(KEY_NAMES[i]) && HasNoNul(KEY_NAMES[i])
    ensures forall i | 0 <= i < |KEY_NAMES| :: HashString(KEY_NAMES[i]) == KEY_HASHES[i]
  {
    forall i | 0 <= i < |KEY_NAMES|
      ensures IsByteString(KEY_NAMES[i]) && HasNoNul(KEY_NAMES[i])
      ensures HashString(KEY_NAMES[i]) == KEY_HASHES[i]
    {
      EntryHash(i);
    }
  }

  predicate Unique<T(==)>(s: seq<T>) {
    forall i, j | 0 <= i < j < |s| :: s[i] != s[j]
  }

  /** No two names of the table hash alike. */
  lemma HashesDistinct()
    ensures Unique(KEY_HASHES)
  {
  }

  /** No code is registered twice. */
  lemma CodesDistinct()
    ensures Unique(KEY_CODES)
  {
  }

  /** A key of `hash_key_map`: the hash word. */
  datatype HashKey = HashKey(hash: Hash)

  /** `hash_key_map` after registering the first `n` codes, whose names hash to `hashes`. */
  function HashKeyMap(codes: seq<Keycode>, hashes: seq<Hash>, n: nat): (m: map<HashKey, Keycode>)
    requires |hashes| == |codes| && Unique(hashes) && n <= |codes|
    ensures forall key | key in m :: exists j | 0 <= j < n :: hashes[j] == key.hash
    ensures forall j | 0 <= j < n :: HashKey(hashes[j]) in m && m[HashKey(hashes[j])] == codes[j]
  {
    if n == 0 then map[]
    else HashKeyMap(codes, hashes, n - 1)[HashKey(hashes[n - 1]) := codes[n - 1]]
  }

  /** `key_string_map` after registering the first `n` codes under `names`. */
  function KeyStringMap(codes: seq<Keycode>, names: seq<string>, n: nat): (m: map<Keycode, StringRef>)
    requires |names| == |codes| && Unique(codes) && n <= |codes|
    ensures forall k | k in m :: exists j | 0 <= j < n :: codes[j] == k
    ensures forall j | 0 <= j < n :: codes[j] in m && m[codes[j]] == NameRef(names[j])
  {
    if n == 0 then map[]
    else KeyStringMap(codes, names, n - 1)[codes[n - 1] := NameRef(names[n - 1])]
  }

  /**
   * With the hashes distinct, the `i`-th hash is not yet in the map of the
   * first `i` entries, and adding it gives the map of the first `i + 1`.
   */
  lemma HashKeyMapStep(codes: seq<Keycode>, hashes: seq<Hash>, i: nat)
    requires |hashes| == |codes| && Unique(hashes) && i < |codes|
    ensures HashKey(hashes[i]) !in HashKeyMap(codes, hashes, i)
    ensures HashKeyMap(codes, hashes, i + 1) == HashKeyMap(codes, hashes, i)[HashKey(hashes[i]) := codes[i]]
  {
    var m := HashKeyMap(codes, hashes, i);
    forall key | key in m
      ensures key != HashKey(hashes[i])
    {
      var j :| 0 <= j < i && hashes[j] == key.hash;
      assert hashes[j] != hashes[i];
    }
  }

  /**
   * With the codes distinct, the `i`-th code is not yet in the map of the
   * first `i` entries, and adding it gives the map of the first `i + 1`.
   */
  lemma KeyStringMapStep(codes: seq<Keycode>, names: seq<string>, i: nat)
    requires |names| == |codes| && Unique(codes) && i < |codes|
    ensures codes[i] !in KeyStringMap(codes, names, i)
    ensures KeyStringMap(codes, names, i + 1) == KeyStringMap(codes, names, i)[codes[i] := NameRef(names[i])]
  {
    var m := KeyStringMap(codes, names, i);
    forall k | k in m
      ensures k != codes[i]
    {
      var j :| 0 <= j < i && codes[j] == k;
      assert codes[j] != codes[i];
    }
  }

  /** `utf8string_hash(name)` for the `i`-th table entry: the hash the table lists for it. */
  method NameHash(names: seq<string>, hashes: seq<Hash>, i: nat) returns (hash: Hash)
    requires i < |names| == |hashes|
    requires forall j | 0 <= j < |names| :: IsByteString(names[j]) && HashString(names[j]) == hashes[j]
    ensures hash == hashes[i]
  {
    hash := HashString(names[i]);
  }

  /**
   * One turn of `init_maps`: the `i`-th key goes into both maps with
   * `emplace`, after the checks that its hash ("collision") and its code
   * ("duplicate") are not there yet.
   */
  method RegisterEntry(codes: seq<Keycode>, names: seq<string>, hashes: seq<Hash>, i: nat,
                       hashKeyMap: map<HashKey, Keycode>, keyStringMap: map<Keycode, StringRef>)
    returns (hashKeyMap': map<HashKey, Keycode>, keyStringMap': map<Keycode, StringRef>)
    requires |names| == |codes| == |hashes| && Unique(hashes) && Unique(codes) && i < |codes|
    requires forall j | 0 <= j < |names| :: IsByteString(names[j]) && HashString(names[j]) == hashes[j]
    requires hashKeyMap == HashKeyMap(codes, hashes, i)
    requires keyStringMap == KeyStringMap(codes, names, i)
    ensures hashKeyMap' == HashKeyMap(codes, hashes, i + 1)
    ensures keyStringMap' == KeyStringMap(codes, names, i + 1)
  {
    var code, name := codes[i], names[i];
    var hash := NameHash(names, hashes, i);
    HashKeyMapStep(codes, hashes, i);
    KeyStringMapStep(codes, names, i);
    assert HashKey(hash) !in hashKeyMap; // "collision"
    hashKeyMap' := hashKeyMap[HashKey(hash) := code];
    assert code !in keyStringMap;        // "duplicate"
    keyStringMap' := keyStringMap[code := NameRef(name)];
  }

  /**
   * The body of `init_maps`: registers the keys one by one with `emplace`,
   * asserting that neither map already holds the hash ("collision") or the
   * code ("duplicate").
   */
  method Register(codes: seq<Keycode>, names: seq<string>, hashes: seq<Hash>)
    returns (hashKeyMap: map<HashKey, Keycode>, keyStringMap: map<Keycode, StringRef>)
    requires |names| == |codes| == |hashes| && Unique(hashes) && Unique(codes)
    requires forall i | 0 <= i < |names| :: IsByteString(names[i]) && HashString(names[i]) == hashes[i]
    ensures hashKeyMap == HashKeyMap(codes, hashes, |codes|)
    ensures keyStringMap == KeyStringMap(codes, names, |codes|)
  {
    hashKeyMap, keyStringMap := map[], map[];
    for i := 0 to |codes|
      invariant hashKeyMap == HashKeyMap(codes, hashes, i)
      invariant keyStringMap == KeyStringMap(codes, names, i)
    {
      hashKeyMap, keyStringMap := RegisterEntry(codes, names, hashes, i, hashKeyMap, keyStringMap);
    }
  }

  /** `init_maps`: the table's names hash apart and its codes differ, so every check passes. */
  method InitMaps() returns (hashKeyMap: map<HashKey, Keycode>, keyStringMap: map<Keycode, StringRef>)
    ensures Unique(KEY_HASHES) && Unique(KEY_CODES)
    ensures hashKeyMap == HashKeyMap(KEY_CODES, KEY_HASHES, |KEY_CODES|)
    ensures keyStringMap == KeyStringMap(KEY_CODES, KEY_NAMES, |KEY_CODES|)
  {
    KeyTableHashes();
    HashesDistinct();
    CodesDistinct();
    hashKeyMap, keyStringMap := Register(KEY_CODES, KEY_NAMES, KEY_HASHES);
  }

  /** `key_name`: the registered name, or an empty `string_ref` for a key without one. */
  function KeyName(k: Keycode): (r: StringRef)
    ensures forall i | 0 <= i < |KEY_CODES| && KEY_CODES[i] == k :: r == NameRef(KEY_NAMES[i])
    ensures k !in KEY_CODES ==> r == EMPTY_REF
  {
    CodesDistinct();
    FindOr(KeyStringMap(KEY_CODES, KEY_NAMES, |KEY_CODES|), k, EMPTY_REF)
  }

  /** `key_code(hash_t)`: the code whose name has this hash, or `NONE`. */
  function KeyCodeOfHash(h: Hash): (r: Keycode)
    ensures forall i | 0 <= i < |KEY_CODES| && KEY_HASHES[i] == h :: r == KEY_CODES[i]
    ensures h !in KEY_HASHES ==> r == NONE
  {
    HashesDistinct();
    FindOr(HashKeyMap(KEY_CODES, KEY_HASHES, |KEY_CODES|), HashKey(h), NONE)
  }

  /**
   * `key_code(utf8string const&)`: the code registered under the name's
   * hash, or `NONE`; only the hash is compared, not the name.
   */
  function KeyCodeOfString(name: string): (r: Keycode)
    requires IsByteString(name)
    ensures forall i | 0 <= i < |KEY_HASHES| && KEY_HASHES[i] == HashString(name) :: r == KEY_CODES[i]
    ensures HashString(name) !in KEY_HASHES ==> r == NONE
  {
    KeyTableHashes();
    KeyCodeOfHash(HashString(name))
  }

  /**
   * `key_code(string_ref)`: hashes the view's storage up to its first NUL.
   * The view must have storage: hashing the empty `string_ref{}` dereferences
   * a null pointer.
   */
  function KeyCodeOfRef(r: StringRef): (c: Keycode)
    requires IsByteString(r.buffer) && |r.buffer| > 0
    ensures forall i | 0 <= i < |KEY_CODES| && KEY_HASHES[i] == HashStringRef(r) :: c == KEY_CODES[i]
    ensures HashStringRef(r) !in KEY_HASHES ==> c == NONE
  {
    KeyCodeOfHash(HashStringRef(r))
  }

  /**
   * A view whose storage holds a registered name followed by a NUL resolves
   * to that name's key, whatever its length field says and whatever follows.
   */
  lemma KeyCodeOfRefReadsToNul(r: StringRef, i: nat, rest: string)
    requires i < |KEY_NAMES| && IsByteString(rest)
    requires r.buffer == KEY_NAMES[i] + [NUL] + rest
    ensures IsByteString(r.buffer)
    ensures KeyCodeOfRef(r) == KEY_CODES[i]
  {
    EntryHash(i);
    var name := KEY_NAMES[i];
    StringRefHashMatchesString(StringRef(r.buffer, |name|), name, rest);
  }

  /** The view `key_name` gives a registered key: its name, then a NUL. */
  lemma KeyNameOf(i: nat)
    requires i < |KEY_CODES|
    ensures KeyName(KEY_CODES[i]) == NameRef(KEY_NAMES[i])
  {
    CodesDistinct();
  }

  /** Every registered key's name, as `key_name` returns it, maps back to the key. */
  lemma KeyNameRoundTrip(i: nat)
    requires i < |KEY_CODES|
    ensures IsByteString(KeyName(KEY_CODES[i]).buffer) && |KeyName(KEY_CODES[i]).buffer| > 0
    ensures KeyCodeOfRef(KeyName(KEY_CODES[i])) == KEY_CODES[i]
  {
    KeyNameOf(i);
    var r := KeyName(KEY_CODES[i]);
    assert r.buffer == KEY_NAMES[i] + [NUL] + [];
    KeyCodeOfRefReadsToNul(r, i, []);
  }

  /** Every registered name, as a string, maps back to its key. */
  lemma KeyStringRoundTrip(i: nat)
    requires i < |KEY_NAMES|
    ensures IsByteString(KEY_NAMES[i]) && KeyCodeOfString(KEY_NAMES[i]) == KEY_CODES[i]
  {
    EntryHash(i);
  }

  /** `ENTER` has an enumerator but no registered name. */
  lemma EnterIsUnnamed()
    ensures KeyName(ENTER) == EMPTY_REF
  {
  }

  /**
   * As written, `key_code(key_name(k))` has no defined result for a key
   * without a name: `key_name` falls back to the empty `string_ref{}`, whose
   * `data()` is null, so the view offers no storage for `KeyCodeOfRef` to hash.
   */
  lemma UnnamedKeyNameHasNoStorage(k: Keycode)
    requires k !in KEY_CODES
    ensures !(|KeyName(k).buffer| > 0)
  {
  }

  /**
   * `key_code(string_ref)` as evidently intended: the empty view stands for
   * the empty text, whose hash 5381 names no key; a view with storage is
   * looked up as written.
   */
  function KeyCodeOfView(r: StringRef): (c: Keycode)
    requires IsByteString(r.buffer)
    ensures |r.buffer| == 0 ==> c == NONE
    ensures forall i | 0 <= i < |KEY_CODES| && |r.buffer| > 0 && KEY_HASHES[i] == HashStringRef(r) :: c == KEY_CODES[i]
    ensures |r.buffer| > 0 && HashStringRef(r) !in KEY_HASHES ==> c == NONE
  {
    if |r.buffer| == 0 then EmptyHashIsUnknown(); KeyCodeOfHash(HashString("")) else KeyCodeOfRef(r)
  }

  /**
   * With the corrected lookup, `key_code(key_name(k))` is defined for every
   * key: a registered key comes back, and any other key gives `NONE`.
   */
  lemma KeyNameLookupTotal(k: Keycode)
    ensures IsByteString(KeyName(k).buffer)
    ensures k in KEY_CODES ==> KeyCodeOfView(KeyName(k)) == k
    ensures k !in KEY_CODES ==> KeyCodeOfView(KeyName(k)) == NONE
  {
    if k in KEY_CODES {
      var i :| 0 <= i < |KEY_CODES| && KEY_CODES[i] == k;
      KeyNameRoundTrip(i);
    }
  }

  /** The hash of the empty string names no key. */
  lemma EmptyHashIsUnknown()
    ensures KeyCodeOfHash(HashString("")) == NONE
  {
  }

  /** The name of `SPACE` is "KEY::SPACE", and all three `key_code` overloads map it back. */
  lemma SpaceNameExample()
    ensures KeyName(SPACE) == NameRef("KEY::SPACE")
    ensures IsByteString("KEY::SPACE") && KeyCodeOfHash(HashString("KEY::SPACE")) == SPACE
    ensures IsByteString("KEY::SPACE") && KeyCodeOfString("KEY::SPACE") == SPACE
    ensures IsByteString(NameRef("KEY::SPACE").buffer) && KeyCodeOfRef(NameRef("KEY::SPACE")) == SPACE
  {
    KeyNameRoundTrip(14);
    KeyStringRoundTrip(14);
    HashSpace("KEY::SPACE");
  }

  // ---------------------------------------------------------------------------
  // Key state
  // ---------------------------------------------------------------------------

  /** `keyboard::record`; its `operator bool` is `isDown`. */
  datatype Record = Record(time: int, isDown: bool)

  /** The codes `i < n` of `rs`, in increasing order, whose record is down. */
  function DownCodes(rs: seq<Record>, n: nat): (r: seq<nat>)
    requires n <= |rs|
    ensures forall j | 0 <= j < |r| :: r[j] < n && rs[r[j]].isDown
    ensures forall i | 0 <= i < n && rs[i].isDown :: i in r
    ensures forall j, l | 0 <= j < l < |r| :: r[j] < r[l]
  {
    if n == 0 then []
    else DownCodes(rs, n - 1) + (if rs[n - 1].isDown then [n - 1] else [])
  }

  /** `keyboard`: the combo of down keys and one record per key. */
  class Keyboard {
    const keys: KeyCombo
    const state: array<Record>

    /** The combo holds exactly the keys whose record is down. */
    ghost predicate Valid()
      reads this, keys, state
    {
      keys.Valid() && state.Length == KEY_COUNT &&
      (forall k | k in keys.keys :: k < KEY_COUNT) &&
      (forall k: Keycode | k < KEY_COUNT :: state[k].isDown <==> k in keys.keys)
    }

    /** `keyboard()`: every key up, stamped with the construction time. */
    constructor (now: int)
      ensures Valid() && fresh(keys) && fresh(state)
      ensures keys.keys == []
      ensures forall k | 0 <= k < KEY_COUNT :: state[k] == Record(now, false)
    {
      keys := new KeyCombo();
      state := new Record[KEY_COUNT](_ => Record(now, false));
    }

    /** `operator[]`: the key's record; it is down iff the key is in the combo. */
    function At(k: Keycode): (r: Record)
      reads this, keys, state
      requires Valid() && k < KEY_COUNT
      ensures r.isDown <==> k in keys.keys
    {
      state[k]
    }

    /**
     * `set_state`: true if the key already had that state, nothing changing;
     * otherwise the record takes the state and time and the combo gains or
     * loses the key, the add or remove succeeding as the source asserts.
     */
    method SetState(key: Keycode, isDown: bool, now: int) returns (alreadySet: bool)
      requires Valid() && key < KEY_COUNT
      modifies keys, state
      ensures Valid()
      ensures alreadySet <==> old(state[key].isDown) == isDown
      ensures state[key] == if alreadySet then old(state[key]) else Record(now, isDown)
      ensures forall k | 0 <= k < KEY_COUNT && k != key :: state[k] == old(state[k])
      ensures Elements(keys.keys) == if isDown then old(Elements(keys.keys)) + {key} else old(Elements(keys.keys)) - {key}
    {
      if state[key].isDown == isDown {
        assert isDown ==> Elements(keys.keys) == Elements(keys.keys) + {key};
        assert !isDown ==> Elements(keys.keys) == Elements(keys.keys) - {key};
        return true;
      }
      ghost var before := Elements(keys.keys);
      state[key] := Record(now, isDown);
      var result;
      if isDown {
        result := keys.Add(key);
      } else {
        result := keys.Remove(key);
      }
      assert result;
      assert forall k | k in keys.keys :: k in Elements(keys.keys);
      assert forall k: Keycode | k < KEY_COUNT :: k in keys.keys <==> k in Elements(keys.keys);
      assert forall k: Keycode | k < KEY_COUNT && k != key :: k in keys.keys <==> k in before;
      return false;
    }

    /**
     * `clear(functor)`: empties the combo and stamps every down key up; with
     * a functor, it is called once per key that was down, in increasing code
     * order (returned here as the list of calls).
     */
    method Clear(hasFunctor: bool, now: int) returns (calls: seq<Keycode>)
      requires Valid()
      modifies keys, state
      ensures Valid() && keys.keys == []
      ensures forall k | 0 <= k < KEY_COUNT :: state[k] == if old(state[k].isDown) then Record(now, false) else old(state[k])
      ensures calls == if hasFunctor then DownCodes(old(state[..]), KEY_COUNT) else []
    {
      keys.Clear();
      ghost var before := state[..];
      calls := [];
      for code := 0 to KEY_COUNT
        invariant keys.keys == []
        invariant forall k | 0 <= k < code :: state[k] == if before[k].isDown then Record(now, false) else before[k]
        invariant forall k | code <= k < KEY_COUNT :: state[k] == before[k]
        invariant calls == if hasFunctor then DownCodes(before, code) else []
      {
        assert DownCodes(before, code + 1) == DownCodes(before, code) + (if before[code].isDown then [code] else []);
        var call := ReleaseKey(code, hasFunctor, now);
        calls := calls + call;
      }
    }

    /**
     * One turn of the loop of `clear`: a down key is stamped up at `now`
     * and, with a functor, reported.
     */
    method ReleaseKey(code: nat, hasFunctor: bool, now: int) returns (call: seq<Keycode>)
      requires state.Length == KEY_COUNT && code < KEY_COUNT
      modifies state
      ensures state[code] == if old(state[code].isDown) then Record(now, false) else old(state[code])
      ensures forall k | 0 <= k < KEY_COUNT && k != code :: state[k] == old(state[k])
      ensures call == if hasFunctor && old(state[code].isDown) then [code] else []
    {
      call := [];
      if state[code].isDown {
        state[code] := Record(now, false);
        if hasFunctor {
          call := [code];
        }
      }
    }
  }

  /** The calls `clear` makes are exactly the keys of the combo, in increasing order. */
  lemma ClearCallsAreCombo(kb: Keyboard)
    requires kb.Valid()
    ensures forall k :: k in DownCodes(kb.state[..], KEY_COUNT) <==> k in kb.keys.keys
  {
  }
}
