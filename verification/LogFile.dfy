/**
  The names of the test log: the buffers that hold the final name and the name used while the log is
  written, and how the one is made from the other.
 */
module LogFile {
  const SUFFIX := ".tmp"

  /** The string a character buffer holds: up to the first NUL. */
  function CString(buffer: seq<char>): (s: string)
    ensures |s| <= |buffer| && s == buffer[..|s|]
    ensures forall i :: 0 <= i < |s| ==> s[i] != '\0'
    ensures |s| < |buffer| ==> buffer[|s|] == '\0'
  {
    if buffer == [] || buffer[0] == '\0' then [] else [buffer[0]] + CString(buffer[1..])
  }

  predicate NoNul(s: string) { forall i :: 0 <= i < |s| ==> s[i] != '\0' }

  lemma {:induction false} CStringIs(buffer: seq<char>, s: string)
    requires NoNul(s) && |s| < |buffer| && buffer[..|s|] == s && buffer[|s|] == '\0'
    ensures CString(buffer) == s
  {
    if s != [] {
      assert s[0] == buffer[0];
      assert buffer[1..][..|s| - 1] == s[1..];
      CStringIs(buffer[1..], s[1..]);
    }
  }

  /** The name kept in a buffer of `size` characters. */
  function Stored(name: string, size: nat): (s: string)
    requires size >= 1
    ensures s <= name && |s| == if |name| < size then |name| else size - 1
  {
    if |name| <= size - 1 then name else name[..size - 1]
  }

  /** Index of the last `c`, -1 if there is none. */
  function LastIndex(s: string, c: char): (i: int)
    ensures -1 <= i < |s|
    ensures i >= 0 ==> s[i] == c
    ensures forall j :: i < j < |s| ==> s[j] != c
  {
    if s == [] then -1
    else if s[|s| - 1] == c then |s| - 1
    else LastIndex(s[..|s| - 1], c)
  }

  lemma {:induction false} LastIndexIs(s: string, c: char, i: int)
    requires -1 <= i < |s| && (i >= 0 ==> s[i] == c) && forall j :: i < j < |s| ==> s[j] != c
    ensures LastIndex(s, c) == i
  {
    if i < |s| - 1 { LastIndexIs(s[..|s| - 1], c, i); }
  }

  /** How much of a stored name is kept in front of the suffix. */
  function StemLength(stored: string, size: nat): (n: nat)
    requires size >= 5
    ensures n <= |stored| && n <= size - 5
  {
    var dot := LastIndex(stored, '.');
    var n := if dot < 0 then |stored| else dot;
    if n > size - 5 then size - 5 else n
  }

  /** The name used while the log is written. */
  function TempName(name: string, size: nat): (t: string)
    requires size >= 5
    ensures |t| <= size - 1
  {
    var stored := Stored(name, size);
    stored[..StemLength(stored, size)] + SUFFIX
  }

  predicate EndsInSuffix(s: string) { |s| >= 4 && s[|s| - 4..] == SUFFIX }

  /** Making a temporary name from one changes nothing. */
  lemma TempIdempotent(name: string, size: nat)
    requires size >= 5
    ensures TempName(TempName(name, size), size) == TempName(name, size)
  {
    var t := TempName(name, size);
    LastIndexIs(t, '.', |t| - 4);
    assert t[..|t| - 4] + SUFFIX == t;
  }

  /** What a stored name gives: up to the last dot, or all of it, as far as the suffix leaves room. */
  lemma TempNames(name: string, size: nat, stem: string, ext: string)
    requires size >= 5 && '.' !in ext
    requires Stored(name, size) == stem + "." + ext || (Stored(name, size) == stem && '.' !in stem)
    ensures TempName(name, size) == (if |stem| <= size - 5 then stem else stem[..size - 5]) + ".tmp"
  {
    var s := Stored(name, size);
    if s == stem + "." + ext {
      assert forall j :: |stem| < j < |s| ==> s[j] == ext[j - |stem| - 1];
      LastIndexIs(s, '.', |stem|);
    } else {
      LastIndexIs(s, '.', -1);
    }
  }

  /** The two names coincide exactly when the stored name already ends in the suffix. */
  lemma TempIsFinal(name: string, size: nat)
    requires size >= 5
    ensures TempName(name, size) == Stored(name, size) <==> EndsInSuffix(Stored(name, size))
  {
    var s, t := Stored(name, size), TempName(name, size);
    assert t[|t| - 4..] == SUFFIX;
    if EndsInSuffix(s) {
      assert s[|s| - 4] == SUFFIX[0] && s[|s| - 3] == SUFFIX[1] && s[|s| - 2] == SUFFIX[2] && s[|s| - 1] == SUFFIX[3];
      LastIndexIs(s, '.', |s| - 4);
      assert s == s[..|s| - 4] + s[|s| - 4..];
    }
  }

  /** The directory part of a path: through the last slash. */
  function Directory(path: string): string { path[..LastIndex(path, '/') + 1] }

  /**
    The log stays in one directory while it is written, so that closing it renames it in place, exactly when
    no slash is cut off with the extension.
   */
  lemma SameDirectory(name: string, size: nat)
    requires size >= 5
    ensures var s := Stored(name, size);
            Directory(TempName(name, size)) == Directory(s) <==> LastIndex(s, '/') < StemLength(s, size)
  {
    var s := Stored(name, size);
    SlashKept(s, StemLength(s, size));
    hide Stored;
    hide StemLength;
    hide LastIndex;
  }

  lemma SlashKept(s: string, n: nat)
    requires n <= |s|
    ensures Directory(s[..n] + SUFFIX) == Directory(s) <==> LastIndex(s, '/') < n
  {
    hide LastIndex;
    if LastIndex(s, '/') < n { KeptSlash(s[..n], s[n..], SUFFIX); } else { LostSlash(s[..n], s[n..], SUFFIX); }
    assert s[..n] + s[n..] == s;
  }

  lemma KeptSlash(stem: string, end: string, suffix: string)
    requires LastIndex(stem + end, '/') < |stem| && '/' !in suffix
    ensures Directory(stem + suffix) == Directory(stem + end)
  {
    hide LastIndex;
    var s, t, slash := stem + end, stem + suffix, LastIndex(stem + end, '/');
    forall j | slash < j < |t| ensures t[j] != '/' {
      if j < |stem| { assert s[j] == t[j]; }
    }
    assert slash >= 0 ==> t[slash] == s[slash];
    LastIndexIs(t, '/', slash);
    assert t[..slash + 1] == stem[..slash + 1] == s[..slash + 1];
  }

  lemma LostSlash(stem: string, end: string, suffix: string)
    requires LastIndex(stem + end, '/') >= |stem| && '/' !in suffix
    ensures Directory(stem + suffix) != Directory(stem + end)
  {
    hide LastIndex;
    var t := stem + suffix;
    var k := LastIndex(t, '/');
    assert forall j :: |stem| <= j < |t| ==> t[j] in suffix;
    assert |Directory(t)| < |Directory(stem + end)|;
  }

  /** A dot in a directory name is enough to lose the directory. */
  lemma DirectoryLost()
    ensures TempName("/ram/v1.2/log", 64) == "/ram/v1.tmp"
    ensures Directory(TempName("/ram/v1.2/log", 64)) != Directory(Stored("/ram/v1.2/log", 64))
  {
    var s := "/ram/v1.2/log";
    LastIndexIs(s, '.', 7);
    LastIndexIs(s, '/', 9);
    assert s[..7] == "/ram/v1";
    SameDirectory(s, 64);
  }

  /** The log part of the library's global data. A descriptor of zero means that no log is open. */
  class LogNames {
    const final: array<char>
    const temp: array<char>
    var desc: nat

    ghost predicate Valid() {
      final != temp && final.Length == temp.Length && final.Length >= 5
    }

    ghost function FinalName(): string
      reads final
    {
      CString(final[..])
    }

    ghost function TemporaryName(): string
      reads temp
    {
      CString(temp[..])
    }

    constructor (size: nat)
      requires size >= 5
      ensures Valid() && fresh(final) && fresh(temp) && final.Length == size
      ensures FinalName() == "" && TemporaryName() == "" && desc == 0
    {
      final := new char[size](_ => '\0');
      temp := new char[size](_ => '\0');
      desc := 0;
    }

    /** Stores both names; `newDesc` is what the system leaves in the descriptor and `created` its answer. */
    method Open(name: string, newDesc: nat, created: bool) returns (ok: bool)
      requires Valid() && NoNul(name)
      modifies this, final, temp
      ensures FinalName() == Stored(name, final.Length) && TemporaryName() == TempName(name, final.Length)
      ensures desc == newDesc && ok == created
    {
      hide LastIndex;
      hide CString;
      StringCopyN(final, name);
      StringCopyN(temp, name);
      var ext := FindLast(temp, '.');
      var length;
      if ext < 0 { length := StringLength(temp); } else { length := ext; }
      if length > temp.Length - 5 { length := temp.Length - 5; }
      AppendSuffix(temp, length, Stored(name, temp.Length));
      desc := newDesc;
      ok := created;
    }

    /** Closing renames the log to its final name, if one is open, and forgets the names in any case. */
    method Close() returns (renamed: bool, ghost from: string, ghost to: string)
      requires Valid()
      modifies this, final, temp
      ensures renamed <==> old(desc) != 0
      ensures from == old(TemporaryName()) && to == old(FinalName())
      ensures desc == 0 && FinalName() == "" && TemporaryName() == ""
    {
      renamed := desc != 0;
      from, to := TemporaryName(), FinalName();
      desc := 0;
      temp[0] := '\0';
      final[0] := '\0';
    }
  }

  /** strncpy of a name followed by the terminating assignment to the last character. */
  method StringCopyN(buffer: array<char>, name: string)
    requires buffer.Length >= 1 && NoNul(name)
    modifies buffer
    ensures CString(buffer[..]) == Stored(name, buffer.Length)
  {
    var limit := buffer.Length - 1;
    for i := 0 to limit
      invariant forall k :: 0 <= k < i ==> buffer[k] == if k < |name| then name[k] else '\0'
    {
      buffer[i] := if i < |name| then name[i] else '\0';
    }
    buffer[limit] := '\0';
    var s := Stored(name, buffer.Length);
    assert buffer[..|s|] == s;
    CStringIs(buffer[..], s);
  }

  /** strlen. */
  method StringLength(buffer: array<char>) returns (n: nat)
    requires |CString(buffer[..])| < buffer.Length
    ensures n == |CString(buffer[..])|
  {
    n := 0;
    while buffer[n] != '\0'
      invariant n <= |CString(buffer[..])|
      decreases buffer.Length - n
    {
      n := n + 1;
    }
  }

  /** strrchr, as an index; -1 stands for NULL. */
  method FindLast(buffer: array<char>, c: char) returns (last: int)
    requires |CString(buffer[..])| < buffer.Length && c != '\0'
    ensures last == LastIndex(CString(buffer[..]), c)
  {
    ghost var s := CString(buffer[..]);
    last := -1;
    var i := 0;
    while buffer[i] != '\0'
      invariant i <= |s| && -1 <= last < i
      invariant last >= 0 ==> s[last] == c
      invariant forall j :: last < j < i ==> s[j] != c
      decreases buffer.Length - i
    {
      assert s[i] == buffer[i];
      if buffer[i] == c { last := i; }
      i := i + 1;
    }
    assert forall k :: 0 <= k < |s| ==> buffer[k] == s[k];
    LastIndexIs(s, c, last);
  }

  /** strcpy of the suffix over the end of the stem. */
  method AppendSuffix(buffer: array<char>, length: nat, ghost stored: string)
    requires CString(buffer[..]) == stored && length <= |stored| && length + 5 <= buffer.Length
    modifies buffer
    ensures CString(buffer[..]) == stored[..length] + SUFFIX
  {
    hide CString;
    for i := 0 to 4
      invariant buffer[..length] == old(buffer[..length])
      invariant buffer[length..length + i] == SUFFIX[..i]
    {
      buffer[length + i] := SUFFIX[i];
      assert buffer[length..length + i + 1] == buffer[length..length + i] + [SUFFIX[i]];
    }
    buffer[length + 4] := '\0';
    var t := stored[..length] + SUFFIX;
    assert old(buffer[..length]) == stored[..length];
    assert buffer[length..length + 4] == SUFFIX;
    assert buffer[..|t|] == buffer[..length] + buffer[length..length + 4];
    CStringIs(buffer[..], t);
  }
}
