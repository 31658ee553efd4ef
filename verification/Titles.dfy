/** Window titles (WineDisplayHost.c): a table of UTF-16 titles keyed by HWND, and the conversion of
    one of them to UTF-8 into a caller's buffer. */
module Titles {

  import opened Wrappers

  const MAX_TITLES: nat := 32
  const TITLE_CHARS: nat := 256

  type Unit = u: nat | u < 0x1_0000
  type Byte = b: nat | b < 256

  /** struct host_title; text is its first `len` units. */
  datatype Title = Free | Used(hwnd: nat, text: seq<Unit>)

  function Cut(text: seq<Unit>): (r: seq<Unit>)
    ensures r <= text && (|r| == |text| <= 256 || |r| == 256 < |text|)
  {
    if |text| > TITLE_CHARS then text[..TITLE_CHARS] else text
  }

  // ---- the table as a map -------------------------------------------------------------------

  predicate Is(t: Title, hwnd: nat) { t.Used? && t.hwnd == hwnd }

  predicate OneSlotEach(titles: seq<Title>) {
    forall i, j :: 0 <= i < j < |titles| && titles[i].Used? && titles[j].Used? ==> titles[i].hwnd != titles[j].hwnd
  }

  /** The title stored for hwnd, if any. */
  function Stored(titles: seq<Title>, hwnd: nat): (r: Option<seq<Unit>>)
    ensures r.None? ==> forall i :: 0 <= i < |titles| ==> !Is(titles[i], hwnd)
    ensures r.Some? ==> exists i :: 0 <= i < |titles| && titles[i] == Used(hwnd, r.value)
  {
    if titles == [] then None
    else if Is(titles[0], hwnd) then Some(titles[0].text)
    else
      var r := Stored(titles[1..], hwnd);
      assert r.Some? ==> forall i :: 0 <= i < |titles[1..]| ==> titles[1..][i] == titles[i + 1];
      r
  }

  predicate HasRoom(titles: seq<Title>) { exists i :: 0 <= i < |titles| && titles[i].Free? }

  lemma StoredIs(titles: seq<Title>, i: nat)
    requires OneSlotEach(titles) && i < |titles| && titles[i].Used?
    ensures Stored(titles, titles[i].hwnd) == Some(titles[i].text)
  {
    var r := Stored(titles, titles[i].hwnd);
    if r.Some? {
      var j :| 0 <= j < |titles| && titles[j] == Used(titles[i].hwnd, r.value);
    } else {
      assert Is(titles[i], titles[i].hwnd);
    }
  }

  // ---- UTF-8 (RFC 3629) ---------------------------------------------------------------------

  /** What the conversion shows for a UTF-16 unit: '?' for a surrogate. */
  function Shown(u: Unit): nat {
    if 0xd800 <= u <= 0xdfff then 0x3f else u
  }

  /** The first n units as shown: a unit that is no surrogate as itself. */
  function ShownPrefix(text: seq<Unit>, n: nat): (r: seq<nat>)
    requires n <= |text|
    ensures |r| == n
    ensures forall i :: 0 <= i < n && (text[i] < 0xd800 || 0xdfff < text[i]) ==> r[i] == text[i]
    ensures forall i :: 0 <= i < n && 0xd800 <= text[i] <= 0xdfff ==> r[i] == '?' as nat
  {
    seq(n, i requires 0 <= i < n => Shown(text[i]))
  }

  function Encode(ch: Unit): (bytes: seq<Byte>)
    ensures 1 <= |bytes| <= 3
  {
    if ch < 0x80 then [ch]
    else if ch < 0x800 then [0xc0 + ch / 64, 0x80 + ch % 64]
    else [0xe0 + ch / 4096, 0x80 + ch / 64 % 64, 0x80 + ch % 64]
  }

  /** The first n units in UTF-8. */
  function EncodePrefix(text: seq<Unit>, n: nat): seq<Byte>
    requires n <= |text|
  {
    if n == 0 then [] else EncodePrefix(text, n - 1) + Encode(Shown(text[n - 1]))
  }

  predicate Tail(bytes: seq<Byte>, i: nat) { i < |bytes| && 0x80 <= bytes[i] <= 0xbf }

  /** A strict decoder: sections 3 and 4 of RFC 3629 (no overlong forms, no surrogates, nothing
      above U+10FFFF).  None for a malformed sequence. */
  function Decode(bytes: seq<Byte>): Option<seq<nat>> {
    if bytes == [] then Some([])
    else
      var b: int := bytes[0];
      if b < 0x80 then Push(b, Decode(bytes[1..]))
      else if 0xc2 <= b <= 0xdf && Tail(bytes, 1) then Push((b - 0xc0) * 64 + Low(bytes, 1), Decode(bytes[2..]))
      else if 0xe0 <= b <= 0xef && Tail(bytes, 1) && Tail(bytes, 2)
        && (b == 0xe0 ==> bytes[1] >= 0xa0) && (b == 0xed ==> bytes[1] <= 0x9f) then
        Push((b - 0xe0) * 4096 + Low(bytes, 1) * 64 + Low(bytes, 2), Decode(bytes[3..]))
      else if 0xf0 <= b <= 0xf4 && Tail(bytes, 1) && Tail(bytes, 2) && Tail(bytes, 3)
        && (b == 0xf0 ==> bytes[1] >= 0x90) && (b == 0xf4 ==> bytes[1] <= 0x8f) then
        Push((b - 0xf0) * 262144 + Low(bytes, 1) * 4096 + Low(bytes, 2) * 64 + Low(bytes, 3), Decode(bytes[4..]))
      else None
  }

  /** The six bits of a continuation byte. */
  function Low(bytes: seq<Byte>, i: nat): nat
    requires Tail(bytes, i)
  {
    var b: int := bytes[i];
    b - 0x80
  }

  function Push(ch: nat, rest: Option<seq<nat>>): Option<seq<nat>> {
    if rest.Some? then Some([ch] + rest.value) else None
  }

  lemma DecodeTwoBytes(ch: Unit, rest: seq<Byte>)
    requires 0x80 <= ch < 0x800
    ensures Decode([0xc0 + ch / 64, 0x80 + ch % 64] + rest) == Push(ch, Decode(rest))
  {
    var bytes: seq<Byte> := [0xc0 + ch / 64, 0x80 + ch % 64] + rest;
    assert bytes[2..] == rest && Low(bytes, 1) == ch % 64;
  }

  lemma DecodeThreeBytes(ch: Unit, rest: seq<Byte>)
    requires 0x800 <= ch && !(0xd800 <= ch <= 0xdfff)
    ensures Decode([0xe0 + ch / 4096, 0x80 + ch / 64 % 64, 0x80 + ch % 64] + rest) == Push(ch, Decode(rest))
  {
    var bytes: seq<Byte> := [0xe0 + ch / 4096, 0x80 + ch / 64 % 64, 0x80 + ch % 64] + rest;
    assert bytes[0] == 0xe0 + ch / 4096 && bytes[3..] == rest;
    assert Low(bytes, 1) == ch / 64 % 64 && Low(bytes, 2) == ch % 64;
    assert ch == ch / 4096 * 4096 + ch / 64 % 64 * 64 + ch % 64;
  }

  lemma DecodeOne(ch: Unit, rest: seq<Byte>)
    requires !(0xd800 <= ch <= 0xdfff)
    ensures Decode(Encode(ch) + rest) == Push(ch, Decode(rest))
  {
    if ch < 0x80 { assert ([ch] + rest)[1..] == rest; }
    else if ch < 0x800 { DecodeTwoBytes(ch, rest); }
    else { DecodeThreeBytes(ch, rest); }
  }

  lemma NextUnit(text: seq<Unit>, n: nat, rest: seq<Byte>, d: seq<nat>)
    requires 0 < n <= |text|
    ensures EncodePrefix(text, n) + rest == EncodePrefix(text, n - 1) + (Encode(Shown(text[n - 1])) + rest)
    ensures ShownPrefix(text, n) + d == ShownPrefix(text, n - 1) + ([Shown(text[n - 1])] + d)
  {
  }

  lemma {:induction false} DecodeAppend(text: seq<Unit>, n: nat, rest: seq<Byte>, d: seq<nat>)
    requires n <= |text| && Decode(rest) == Some(d)
    ensures Decode(EncodePrefix(text, n) + rest) == Some(ShownPrefix(text, n) + d)
    decreases n
  {
    if n == 0 {
      assert EncodePrefix(text, n) + rest == rest && ShownPrefix(text, n) + d == d;
    } else {
      var ch := Shown(text[n - 1]);
      DecodeOne(ch, rest);
      DecodeAppend(text, n - 1, Encode(ch) + rest, [ch] + d);
      NextUnit(text, n, rest, d);
    }
  }

  /** Decoding what was encoded gives the text with each surrogate unit shown as '?'. */
  lemma DecodeEncoded(text: seq<Unit>, n: nat)
    requires n <= |text|
    ensures Decode(EncodePrefix(text, n)) == Some(ShownPrefix(text, n))
  {
    DecodeAppend(text, n, [], []);
    assert EncodePrefix(text, n) + [] == EncodePrefix(text, n);
    assert ShownPrefix(text, n) + [] == ShownPrefix(text, n);
  }

  // ---- the class ----------------------------------------------------------------------------

  /** How many whole units the copy loop converts: it stops at the end or once fewer than 5 bytes
      are left. */
  ghost predicate Stops(text: seq<Unit>, n: nat, maxBytes: int) {
    && n <= |text|
    && (n == |text| || |EncodePrefix(text, n)| >= maxBytes - 4)
    && Short(text, n, maxBytes)
  }

  /** Before each of the first n units at least 5 bytes were left. */
  ghost predicate Short(text: seq<Unit>, n: nat, maxBytes: int)
    requires n <= |text|
  {
    forall k :: 0 <= k < n ==> |EncodePrefix(text, k)| < maxBytes - 4
  }

  class TitleTable {
    const titles: array<Title>

    ghost predicate Valid()
      reads titles
    {
      && OneSlotEach(titles[..])
      && forall i :: 0 <= i < titles.Length && titles[i].Used? ==> |titles[i].text| <= TITLE_CHARS
    }

    constructor ()
      ensures Valid() && fresh(titles) && titles.Length == 32 && forall hwnd :: Stored(titles[..], hwnd).None?
    {
      titles := new Title[MAX_TITLES](_ => Free);
    }

    /** cb_window_title: the last title set for a window is the one stored, unless the window is
        new and no slot is left. */
    method WindowTitle(hwnd: nat, utf16: seq<Unit>)
      requires Valid()
      modifies titles
      ensures Valid()
      ensures forall w :: w != hwnd ==> Stored(titles[..], w) == Stored(old(titles[..]), w)
      ensures Stored(titles[..], hwnd) ==
        if Stored(old(titles[..]), hwnd).Some? || HasRoom(old(titles[..])) then Some(Cut(utf16)) else None
    {
      var slot: nat := titles.Length;
      var i: nat := 0;
      while i < titles.Length
        invariant i <= titles.Length && slot <= titles.Length
        invariant forall k :: 0 <= k < i ==> !Is(titles[k], hwnd)
        invariant slot < titles.Length ==> slot < i && titles[slot].Free?
        invariant slot == titles.Length ==> forall k :: 0 <= k < i ==> titles[k].Used?
      {
        if titles[i].Used? && titles[i].hwnd == hwnd { slot := i; break; }
        if slot == titles.Length && titles[i].Free? { slot := i; }
        i := i + 1;
      }
      ghost var was := titles[..];
      if slot < titles.Length {
        titles[slot] := Used(hwnd, if |utf16| > TITLE_CHARS then utf16[..TITLE_CHARS] else utf16);
        StoreOne(was, slot, hwnd, Cut(utf16));
      } else {
        StoredNowhere(was, hwnd);
      }
    }

    /** wine_display_copy_title: whole characters of the stored title, never more than the buffer. */
    method CopyTitle(hwnd: nat, utf8: array<Byte>, maxBytes: int) returns (written: nat)
      requires Valid() && maxBytes <= utf8.Length
      modifies utf8
      ensures written <= Max(0, maxBytes - 2) && written <= utf8.Length
      ensures Stored(titles[..], hwnd).None? ==> written == 0
      ensures Stored(titles[..], hwnd).Some? ==> exists n: nat ::
        && Stops(Stored(titles[..], hwnd).value, n, maxBytes)
        && utf8[..written] == EncodePrefix(Stored(titles[..], hwnd).value, n)
    {
      written := 0;
      var i := 0;
      while i < titles.Length
        invariant i <= titles.Length && written == 0
        invariant forall k :: 0 <= k < i ==> !Is(titles[k], hwnd)
      {
        if titles[i].Used? && titles[i].hwnd == hwnd {
          StoredIs(titles[..], i);
          ghost var n;
          written, n := Convert(titles[i].text, utf8, maxBytes);
          return;
        }
        i := i + 1;
      }
      StoredNowhere(titles[..], hwnd);
    }
  }

  /** The conversion loop, lines 240-252. */
  method Convert(text: seq<Unit>, utf8: array<Byte>, maxBytes: int) returns (written: nat, ghost n: nat)
    requires maxBytes <= utf8.Length
    modifies utf8
    ensures written <= Max(0, maxBytes - 2) && written <= utf8.Length
    ensures Stops(text, n, maxBytes) && utf8[..written] == EncodePrefix(text, n)
  {
    written := 0;
    var c: nat := 0;
    while c < |text| && written < maxBytes - 4
      invariant c <= |text| && written <= Max(0, maxBytes - 2) && written <= utf8.Length
      invariant utf8[..written] == EncodePrefix(text, c)
      invariant Short(text, c, maxBytes)
    {
      var ch: Unit := text[c];
      if 0xd800 <= ch <= 0xdfff { ch := 0x3f; }
      written := PutChar(utf8, written, ch);
      c := c + 1;
    }
    n := c;
  }

  /** Lines 243-251. */
  method PutChar(utf8: array<Byte>, at: nat, ch: Unit) returns (written: nat)
    requires at + 3 <= utf8.Length
    modifies utf8
    ensures written == at + |Encode(ch)| && utf8[..written] == old(utf8[..at]) + Encode(ch)
  {
    written := at;
    if ch < 0x80 {
      utf8[written] := ch;
      written := written + 1;
    } else if ch < 0x800 {
      utf8[written] := 0xc0 + ch / 64;
      utf8[written + 1] := 0x80 + ch % 64;
      written := written + 2;
    } else {
      utf8[written] := 0xe0 + ch / 4096;
      utf8[written + 1] := 0x80 + ch / 64 % 64;
      utf8[written + 2] := 0x80 + ch % 64;
      written := written + 3;
    }
    assert utf8[at..written] == Encode(ch);
    Glue(utf8[..written], at, old(utf8[..at]), Encode(ch));
  }

  lemma Glue(whole: seq<Byte>, n: nat, a: seq<Byte>, b: seq<Byte>)
    requires n <= |whole| && whole[..n] == a && whole[n..] == b
    ensures whole == a + b
  {
  }

  function Max(a: int, b: int): int { if a > b then a else b }

  lemma {:induction false} StoredNowhere(titles: seq<Title>, hwnd: nat)
    requires forall k :: 0 <= k < |titles| ==> !Is(titles[k], hwnd)
    ensures Stored(titles, hwnd).None?
  {
    if titles != [] {
      forall k | 0 <= k < |titles[1..]| ensures !Is(titles[1..][k], hwnd) { assert !Is(titles[k + 1], hwnd); }
      StoredNowhere(titles[1..], hwnd);
    }
  }

  lemma StoreOne(titles: seq<Title>, slot: nat, hwnd: nat, text: seq<Unit>)
    requires OneSlotEach(titles) && slot < |titles|
    requires Is(titles[slot], hwnd) || (titles[slot].Free? && forall k :: 0 <= k < |titles| ==> !Is(titles[k], hwnd))
    ensures var t' := titles[slot := Used(hwnd, text)];
      OneSlotEach(t') && Stored(t', hwnd) == Some(text) && forall w :: w != hwnd ==> Stored(t', w) == Stored(titles, w)
  {
    var t' := titles[slot := Used(hwnd, text)];
    StoredIs(t', slot);
    forall w | w != hwnd ensures Stored(t', w) == Stored(titles, w) {
      var r := Stored(titles, w);
      if r.Some? {
        var i :| 0 <= i < |titles| && titles[i] == Used(w, r.value);
        StoredIs(t', i);
      } else {
        forall k | 0 <= k < |t'| ensures !Is(t'[k], w) { assert k != slot ==> !Is(titles[k], w); }
        StoredNowhere(t', w);
      }
    }
  }

  /** The bytes delivered are well-formed UTF-8 for whole characters: they decode to a prefix of the
      stored title with each surrogate unit replaced by '?', and only a full buffer cuts it short. */
  lemma CopiedTitleDecodes(text: seq<Unit>, n: nat, maxBytes: int)
    requires Stops(text, n, maxBytes)
    ensures Decode(EncodePrefix(text, n)) == Some(ShownPrefix(text, n))
    ensures 3 * |text| < maxBytes - 1 ==> n == |text|
    ensures |EncodePrefix(text, n)| <= Max(0, maxBytes - 2)
  {
    DecodeEncoded(text, n);
    EncodedLength(text, n);
  }

  lemma {:induction false} EncodedLength(text: seq<Unit>, n: nat)
    requires n <= |text|
    ensures n <= |EncodePrefix(text, n)| <= 3 * n
    decreases n
  {
    if n > 0 { EncodedLength(text, n - 1); }
  }
}
