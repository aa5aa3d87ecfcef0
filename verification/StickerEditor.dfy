/** The keystroke editor for stickers (`read_multiline_overlay`, sticker_commands.c): a
    heap buffer edited key by key and doubled when full. */
module StickerEditor {
  import opened Collections
  import opened CText

  const INITIAL_SIZE: nat := 1024

  /** One result of `getchar`. */
  datatype Key = EndOfInput | Key(c: char)

  const ESCAPE := Key(27 as char)
  const DELETE := Key(127 as char)
  const BACKSPACE := Key(8 as char)

  predicate Ends(k: Key) {
    k == ESCAPE || k == EndOfInput
  }

  predicate Erases(k: Key) {
    k == DELETE || k == BACKSPACE
  }

  /** The keys before the first ESC or end of input. */
  function Before(keys: seq<Key>): (r: seq<Key>)
    ensures r <= keys && (forall i :: 0 <= i < |r| ==> !Ends(keys[i]) && keys[i].Key?)
    ensures |r| < |keys| ==> Ends(keys[|r|])
  {
    if keys == [] || Ends(keys[0]) then [] else [keys[0]] + Before(keys[1..])
  }

  /** The stack reduction of the keys: a backspace pops, and does nothing when there is
      nothing to pop. */
  function Reduce(keys: seq<Key>): (text: string)
    requires forall i :: 0 <= i < |keys| ==> keys[i].Key?
    ensures |text| <= |keys|
  {
    if keys == [] then ""
    else
      AfterKey(Reduce(keys[..|keys| - 1]), keys[|keys| - 1])
  }

  /** A character is pushed, an erasing key pops if there is anything to pop. */
  function AfterKey(text: string, k: Key): (after: string)
    requires k.Key?
    ensures |after| <= |text| + 1
  {
    if !Erases(k) then text + [k.c]
    else if text == "" then ""
    else text[..|text| - 1]
  }

  /** Typing a character and erasing it leaves the text as it was, wherever it happens. */
  lemma EraseUndoes(keys: seq<Key>, k: Key, erase: Key)
    requires (forall i :: 0 <= i < |keys| ==> keys[i].Key?) && k.Key? && !Erases(k) && Erases(erase)
    ensures Reduce(keys + [k, erase]) == Reduce(keys)
  {
    TwoMore(keys, k, erase);
    ReduceSnoc(keys, k);
    ReduceSnoc(keys + [k], erase);
    AppendThenPop(Reduce(keys), k.c);
  }

  /** No end of input among the keys. */
  predicate Typed(keys: seq<Key>) {
    forall i :: 0 <= i < |keys| ==> keys[i].Key?
  }

  /** ... whatever is typed afterwards. */
  lemma EraseUndoesInside(keys: seq<Key>, k: Key, erase: Key, more: seq<Key>)
    requires Typed(keys) && Typed(more) && k.Key? && !Erases(k) && Erases(erase)
    ensures Reduce(keys + [k, erase] + more) == Reduce(keys + more)
  {
    EraseUndoes(keys, k, erase);
    SameBehind(keys + [k, erase], keys, more);
  }

  /** An erasing key does nothing when there is nothing to erase. */
  lemma EraseOfNothing(erase: Key, more: seq<Key>)
    requires Erases(erase) && Typed(more)
    ensures Reduce([erase] + more) == Reduce(more)
  {
    assert [erase][..0] == [];
    SameBehind([erase], [], more);
    ConcatNothing(more);
  }

  lemma {:induction false} SameBehind(a: seq<Key>, b: seq<Key>, more: seq<Key>)
    requires Typed(a) && Typed(b) && Typed(more) && Reduce(a) == Reduce(b)
    ensures Reduce(a + more) == Reduce(b + more)
    decreases |more|
  {
    if more == [] {
      ConcatNothing(a);
      ConcatNothing(b);
    } else {
      var init, last := more[..|more| - 1], more[|more| - 1];
      SameBehind(a, b, init);
      OneMoreBehind(a, init, last);
      OneMoreBehind(b, init, last);
      assert more == init + [last];
    }
  }

  lemma OneMoreBehind(a: seq<Key>, init: seq<Key>, last: Key)
    requires Typed(a) && Typed(init) && last.Key?
    ensures Typed(a + (init + [last])) && Reduce(a + (init + [last])) == AfterKey(Reduce(a + init), last)
  {
    ConcatAssociates(a, init, [last]);
    ReduceSnoc(a + init, last);
  }

  /** The keys that erase are 8 and 127, the one that ends the text is 27. */
  lemma SpecialKeys(c: char)
    ensures Erases(Key(c)) <==> c as int == 8 || c as int == 127
    ensures Ends(Key(c)) <==> c as int == 27
    ensures Ends(EndOfInput)
  {
  }

  lemma ReduceSnoc(keys: seq<Key>, k: Key)
    requires (forall i :: 0 <= i < |keys| ==> keys[i].Key?) && k.Key?
    ensures Reduce(keys + [k]) == AfterKey(Reduce(keys), k)
  {
    assert (keys + [k])[..|keys|] == keys;
  }

  lemma TwoMore(keys: seq<Key>, k: Key, erase: Key)
    ensures keys + [k, erase] == keys + [k] + [erase]
  {
  }

  lemma AppendThenPop(text: string, c: char)
    ensures (text + [c])[..|text|] == text
  {
  }

  /** Keys that erase nothing spell themselves out. */
  lemma {:induction false} PlainKeys(text: string)
    requires forall c :: c in text ==> !Erases(Key(c))
    ensures Reduce(seq(|text|, i requires 0 <= i < |text| => Key(text[i]))) == text
  {
    if text != "" {
      var init := text[..|text| - 1];
      var keys := seq(|text|, i requires 0 <= i < |text| => Key(text[i]));
      PlainKeys(init);
      assert keys[..|keys| - 1] == seq(|init|, i requires 0 <= i < |init| => Key(init[i]));
      assert text[|text| - 1] in text;
    }
  }

  /** The size of the buffer: the initial one, doubled some number of times. */
  predicate Capacity(size: nat) {
    size == INITIAL_SIZE || (size > INITIAL_SIZE && size % 2 == 0 && Capacity(size / 2))
  }

  lemma {:induction false} CapacityIsMultiple(size: nat) returns (k: nat)
    requires Capacity(size)
    ensures k > 0 && size == 1024 * k
  {
    k := 1;
    if size != INITIAL_SIZE {
      k := CapacityIsMultiple(size / 2);
      k := 2 * k;
    }
  }

  method Grow(buffer: array<char>) returns (larger: array<char>)
    modifies {}
    ensures fresh(larger) && larger.Length == 2 * buffer.Length
    ensures larger[..buffer.Length] == buffer[..]
  {
    larger := new char[2 * buffer.Length](_ => NUL);
    forall i | 0 <= i < buffer.Length {
      larger[i] := buffer[i];
    }
  }

  lemma Doubled(size: nat)
    requires Capacity(size)
    ensures Capacity(2 * size)
  {
    assert 2 * size / 2 == size;
  }

  /** Room for one more character and the terminator, in a buffer twice the size if need be. */
  method MakeRoom(buffer: array<char>, length: nat) returns (after: array<char>)
    requires Capacity(buffer.Length) && length < buffer.Length
    modifies {}
    ensures (after == buffer || fresh(after)) && Capacity(after.Length) && length + 1 < after.Length
    ensures after[..length] == buffer[..length]
  {
    after := buffer;
    if length + 2 > buffer.Length {
      after := Grow(buffer);
      Doubled(buffer.Length);
      assert after[..length] == after[..buffer.Length][..length];
    }
  }

  /** Appending one character with its terminator. */
  method Append(buffer: array<char>, length: nat, c: char) returns (after: array<char>)
    requires Capacity(buffer.Length) && length < buffer.Length
    modifies buffer
    ensures (after == buffer || fresh(after)) && Capacity(after.Length) && length + 1 < after.Length
    ensures after[..length + 1] == old(buffer[..length]) + [c] && after[length + 1] == NUL
  {
    after := MakeRoom(buffer, length);
    Put(after, length, c);
  }

  method Put(buffer: array<char>, length: nat, c: char)
    requires length + 1 < buffer.Length
    modifies buffer
    ensures buffer[..length + 1] == old(buffer[..length]) + [c] && buffer[length + 1] == NUL
  {
    buffer[length] := c;
    buffer[length + 1] := NUL;
  }

  /** After any keystrokes the buffer holds their stack reduction and a terminator, and
      every write was inside it. */
  method ReadMultilineOverlay(keys: seq<Key>) returns (buffer: array<char>, length: nat)
    requires |Before(keys)| < |keys|  // the input does end
    ensures fresh(buffer) && Capacity(buffer.Length) && length < buffer.Length
    ensures buffer[..length] == Reduce(Before(keys)) && buffer[length] == NUL
  {
    buffer := new char[INITIAL_SIZE](_ => NUL);
    length := 0;
    ghost var done := Before(keys);
    var i := 0;
    while !Ends(keys[i])
      invariant i <= |done|
      invariant fresh(buffer) && Capacity(buffer.Length) && length < buffer.Length
      invariant buffer[..length] == Reduce(done[..i]) && buffer[length] == NUL
      decreases |done| - i
    {
      ReduceStep(done, i);
      buffer, length := Apply(buffer, length, keys[i]);
      i := i + 1;
    }
    assert done[..i] == done;
  }

  /** The loop's body: what one key does to the buffer. */
  method Apply(buffer: array<char>, length: nat, k: Key) returns (after: array<char>, len: nat)
    requires Capacity(buffer.Length) && length < buffer.Length && buffer[length] == NUL && k.Key?
    modifies buffer
    ensures (after == buffer || fresh(after)) && Capacity(after.Length) && len < after.Length && after[len] == NUL
    ensures after[..len] == AfterKey(old(buffer[..length]), k)
  {
    after, len := buffer, length;
    if !Erases(k) {
      after := Append(buffer, length, k.c);
      len := length + 1;
    } else if length > 0 {
      len := length - 1;
      buffer[len] := NUL;
      assert buffer[..len] == old(buffer[..length])[..len];
    }
  }

  lemma ReduceStep(keys: seq<Key>, i: nat)
    requires i < |keys| && forall k :: 0 <= k < |keys| ==> keys[k].Key?
    ensures Reduce(keys[..i + 1]) == AfterKey(Reduce(keys[..i]), keys[i])
  {
    assert keys[..i + 1][..i] == keys[..i];
  }
}
