/** `StringHelper` (`wcapi`): the character-shift obfuscation of strings and
    the removal of the placeholder markers. The `BuildConfig` values
    `SECRET_LETTER`, `LOVE` and `YOU` are build-time constants this model
    takes as parameters. */
module StringHelper {
  import opened Jvm
  import opened Text

  /** Every code unit of `s` shifted by `n`, modulo 2^16. */
  function ShiftAll(s: seq<CodeUnit>, n: int): (r: seq<CodeUnit>)
  {
    seq(|s|, i requires 0 <= i < |s| => ShiftChar(s[i], n))
  }

  /** `String.encrypt()`: each character moved up by the secret letter's
      code, over the string's `CharArray`. */
  method Encrypt(s: seq<CodeUnit>, secret: CodeUnit) returns (r: seq<CodeUnit>)
    ensures r == ShiftAll(s, secret as int)
  {
    var a := new CodeUnit[|s|](i requires 0 <= i < |s| => s[i]);
    for i := 0 to a.Length
      invariant a[..i] == ShiftAll(s[..i], secret as int)
      invariant a[i..] == s[i..]
    {
      a[i] := ShiftChar(a[i], secret as int);
      assert a[..i + 1] == a[..i] + [a[i]];
    }
    r := a[..];
    assert s[..a.Length] == s;
  }

  /** `String.decrypt()`: each character moved down by the secret letter's
      code. */
  method Decrypt(s: seq<CodeUnit>, secret: CodeUnit) returns (r: seq<CodeUnit>)
    ensures r == ShiftAll(s, -(secret as int))
  {
    var a := new CodeUnit[|s|](i requires 0 <= i < |s| => s[i]);
    for i := 0 to a.Length
      invariant a[..i] == ShiftAll(s[..i], -(secret as int))
      invariant a[i..] == s[i..]
    {
      a[i] := ShiftChar(a[i], -(secret as int));
      assert a[..i + 1] == a[..i] + [a[i]];
    }
    r := a[..];
    assert s[..a.Length] == s;
  }

  lemma ShiftBack(c: CodeUnit, n: int)
    ensures ShiftChar(ShiftChar(c, n), -n) == c
  {
    var m := (c as int + n) % 0x1_0000;
    assert (m - n) % 0x1_0000 == c as int by {
      assert m == c as int + n - ((c as int + n) / 0x1_0000) * 0x1_0000;
    }
  }

  /** Decrypting an encrypted string gives it back, for every string and
      every secret: `Char` arithmetic wraps, so no character is lost. */
  lemma DecryptEncrypt(s: seq<CodeUnit>, secret: CodeUnit)
    ensures ShiftAll(ShiftAll(s, secret as int), -(secret as int)) == s
    ensures ShiftAll(ShiftAll(s, -(secret as int)), secret as int) == s
  {
    forall i | 0 <= i < |s|
      ensures ShiftAll(ShiftAll(s, secret as int), -(secret as int))[i] == s[i]
      ensures ShiftAll(ShiftAll(s, -(secret as int)), secret as int)[i] == s[i]
    {
      ShiftBack(s[i], secret as int);
      ShiftBack(s[i], -(secret as int));
    }
  }

  /** `String.restoreAllIllusion()`: `replaceThis()` turns every `LOVE` into
      ".", then `removeSeizeSeat()` deletes every `YOU`. */
  function RestoreAllIllusion(s: string, love: string, you: string): string
  {
    ReplaceAll(ReplaceAll(s, love, "."), you, "")
  }

  /** A string holding neither marker comes back unchanged. */
  lemma RestoreWithoutMarkers(s: string, love: string, you: string)
    requires |love| > 0 && |you| > 0
    requires !Contains(s, love) && !Contains(s, you)
    ensures RestoreAllIllusion(s, love, you) == s
  {
    ReplaceAbsent(s, love, ".");
    ReplaceAbsent(s, you, "");
  }

  /** A one-character `YOU` is gone from the result. */
  lemma RestoreRemovesYou(s: string, love: string, c: char)
    ensures Free(RestoreAllIllusion(s, love, [c]), c)
  {
    RemoveCharIsWithout(ReplaceAll(s, love, "."), c);
  }
}
