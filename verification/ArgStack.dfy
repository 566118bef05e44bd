/** From a command line to a user stack: strtok_r of lib/string.c, and parse_args and the argument part of
    load in userprog/process.c. */
module ArgStack {
  import opened Basics

  const MAX_ARGS: nat := 128
  const MAX_BUF: nat := 128
  const USER_STACK: nat := 0x4748_0000
  const PGSIZE: nat := 4096

  // ---------- the words of a command line ----------

  /** A maximal run of non-spaces starts at I. */
  predicate WordStart(line: string, i: nat) {
    i < |line| && line[i] != ' ' && (i == 0 || line[i - 1] == ' ')
  }

  /** The starts of the words before position HI. */
  function Starts(line: string, hi: nat): seq<nat>
    requires hi <= |line|
  {
    if hi == 0 then [] else Starts(line, hi - 1) + if WordStart(line, hi - 1) then [hi - 1] else []
  }

  /** The first position from I on that is not inside a word. */
  function WordEnd(line: string, i: nat): (e: nat)
    requires i <= |line|
    ensures i <= e <= |line| && (forall k :: i <= k < e ==> line[k] != ' ') && (e < |line| ==> line[e] == ' ')
    decreases |line| - i
  {
    if i < |line| && line[i] != ' ' then WordEnd(line, i + 1) else i
  }

  lemma {:induction false} StartsFacts(line: string, hi: nat, i: nat)
    requires hi <= |line|
    ensures i in Starts(line, hi) <==> i < hi && WordStart(line, i)
    ensures forall k :: 0 <= k < |Starts(line, hi)| ==> Starts(line, hi)[k] < hi
  {
    if hi > 0 {
      StartsFacts(line, hi - 1, i);
    }
  }

  /** Word starts are listed in rising order, so each word is counted once. */
  lemma {:induction false} StartsRise(line: string, hi: nat)
    requires hi <= |line|
    ensures var s := Starts(line, hi); forall j, k :: 0 <= j < k < |s| ==> s[j] < s[k]
  {
    if hi > 0 {
      StartsRise(line, hi - 1);
      StartsFacts(line, hi - 1, 0);
    }
  }

  function Words(line: string): (w: seq<string>)
    ensures |w| == |Starts(line, |line|)|
  {
    WordsAt(line, Starts(line, |line|))
  }

  function WordsAt(line: string, starts: seq<nat>): (w: seq<string>)
    ensures |w| == |starts|
    ensures forall k :: 0 <= k < |w| ==> starts[k] <= |line| ==> w[k] == line[starts[k]..WordEnd(line, starts[k])]
  {
    seq(|starts|, k requires 0 <= k < |starts| => if starts[k] <= |line| then line[starts[k]..WordEnd(line, starts[k])] else "")
  }

  /** Every non-space of the line is in exactly one word. */
  lemma {:induction false} InSomeWord(line: string, i: nat) returns (k: nat)
    requires i < |line| && line[i] != ' '
    ensures k < |Starts(line, |line|)| && Starts(line, |line|)[k] <= i < WordEnd(line, Starts(line, |line|)[k])
  {
    var s := Starts(line, |line|);
    var j := i;
    while j > 0 && line[j - 1] != ' '
      invariant 0 <= j <= i && forall m :: j <= m <= i ==> line[m] != ' '
    {
      j := j - 1;
    }
    StartsFacts(line, |line|, j);
    k :| 0 <= k < |s| && s[k] == j;
  }

  // ---------- strtok_r ----------

  /** strchr finds CH in the delimiters, or CH is the NUL at their end. */
  predicate Delimits(delims: string, ch: char) { ch == '\0' || ch in delims }

  /** [t, e) is the first maximal run of other characters from S on. */
  ghost predicate TokenAt(buf: seq<char>, n: nat, s: nat, delims: string, t: nat, e: nat)
    requires n < |buf|
  {
    && s <= t < e <= n && (forall i :: s <= i < t ==> buf[i] in delims)
    && (forall i :: t <= i < e ==> buf[i] !in delims) && (e < n ==> buf[e] in delims)
  }

  /** strtok_r, from position S of a string whose NUL is at N: the next token, and where to go on. */
  method StrtokR(buf: array<char>, n: nat, s: nat, delims: string) returns (token: Option<nat>, save: nat)
    requires s <= n < buf.Length && buf[n] == '\0' && forall i :: s <= i < n ==> buf[i] != '\0'
    modifies buf
    ensures token == None ==> save == n && buf[..] == old(buf[..]) && forall i :: s <= i < n ==> old(buf[i]) in delims
    ensures token.Some? ==> exists e: nat :: (
      TokenAt(old(buf[..]), n, s, delims, token.value, e)
      && save == (if e < n then e + 1 else n) && buf[..] == old(buf[..])[e := '\0'])
  {
    ghost var was := buf[..];
    var p := s;
    while Delimits(delims, buf[p])
      invariant s <= p <= n && forall i :: s <= i < p ==> was[i] in delims
      decreases n - p
    {
      if buf[p] == '\0' {
        return None, p;
      }
      p := p + 1;
    }
    token := Some(p);
    while !Delimits(delims, buf[p])
      invariant token.value <= p <= n && forall i :: token.value <= i < p ==> was[i] !in delims
      decreases n - p
    {
      p := p + 1;
    }
    ghost var e := p;
    assert TokenAt(was, n, s, delims, token.value, e);
    if buf[p] != '\0' {
      buf[p] := '\0';
      save := p + 1;
    } else {
      save := p;
    }
    assert buf[..] == was[e := '\0'];
  }

  // ---------- parse_args ----------

  lemma {:induction false} NoStarts(line: string, a: nat, b: nat)
    requires a <= b <= |line| && forall i :: a <= i < b ==> !WordStart(line, i)
    ensures Starts(line, b) == Starts(line, a)
    decreases b
  {
    if a < b { NoStarts(line, a, b - 1); }
  }

  /** One token from S on: spaces up to T, the word up to E. */
  lemma OneStart(line: string, s: nat, t: nat, e: nat, save: nat)
    requires s <= t < e <= |line| && (s == 0 || line[s - 1] == ' ')
    requires (forall i :: s <= i < t ==> line[i] == ' ') && (forall i :: t <= i < e ==> line[i] != ' ')
    requires e < |line| ==> line[e] == ' '
    requires save == if e < |line| then e + 1 else |line|
    ensures Starts(line, save) == Starts(line, s) + [t]
  {
    NoStarts(line, s, t);
    assert WordStart(line, t);
    NoStarts(line, t + 1, save);
  }

  /** What strtok_r leaves at position I: the first space behind each word becomes NUL. */
  function CutChar(line: string, i: nat): char {
    if i >= |line| || (line[i] == ' ' && i > 0 && line[i - 1] != ' ') then '\0' else line[i]
  }

  /** The buffer after tokenizing the first P characters of LINE. */
  ghost predicate CutTo(buf: seq<char>, line: string, p: nat) {
    && p <= |line| < |buf|
    && (forall i :: 0 <= i < p ==> buf[i] == CutChar(line, i))
    && (forall i :: p <= i < |line| ==> buf[i] == line[i]) && buf[|line|] == '\0'
  }

  lemma CutOn(buf: seq<char>, line: string, s: nat, t: nat, e: nat, save: nat)
    requires CutTo(buf, line, s) && s <= t < e <= |line| && (s == 0 || line[s - 1] == ' ')
    requires (forall i :: s <= i < t ==> line[i] == ' ') && (forall i :: t <= i < e ==> line[i] != ' ')
    requires e < |line| ==> line[e] == ' '
    requires save == if e < |line| then e + 1 else |line|
    ensures CutTo(buf[e := '\0'], line, save)
  {
  }

  lemma CutRest(buf: seq<char>, line: string, s: nat)
    requires CutTo(buf, line, s) && (s == 0 || s == |line| || line[s - 1] == ' ')
    requires forall i :: s <= i < |line| ==> line[i] == ' '
    ensures CutTo(buf, line, |line|) && Starts(line, |line|) == Starts(line, s)
  {
    NoStarts(line, s, |line|);
  }

  /** strtok_r, on what is left of LINE from position S on. */
  method NextToken(target: array<char>, n: nat, s: nat, ghost line: string) returns (token: Option<nat>, save: nat)
    requires n == |line| && CutTo(target[..], line, s) && forall i :: 0 <= i < |line| ==> line[i] != '\0'
    requires s == 0 || s == |line| || line[s - 1] == ' '
    modifies target
    ensures save <= n && CutTo(target[..], line, save) && target[n..] == old(target[n..])
    ensures save == 0 || save == |line| || line[save - 1] == ' '
    ensures token.None? ==> save == |line| && Starts(line, save) == Starts(line, s)
    ensures token.Some? ==> s < save && Starts(line, save) == Starts(line, s) + [token.value]
  {
    hide Starts, WordStart, CutChar;
    forall i | s <= i < |line| ensures target[i] == line[i] {
      assert target[i] == target[..][i];
    }
    token, save := StrtokR(target, n, s, " ");
    if token.Some? {
      ghost var e: nat :| TokenAt(old(target[..]), n, s, " ", token.value, e)
        && save == (if e < |line| then e + 1 else |line|) && target[..] == old(target[..])[e := '\0'];
      OneStart(line, s, token.value, e, save);
      CutOn(old(target[..]), line, s, token.value, e, save);
    } else {
      CutRest(target[..], line, s);
    }
  }

  /** parse_args, for a line whose NUL is at N. ARGV are the cells stored through the pointer argv; -1 is
      the null pointer. load passes an array of MAX_ARGS cells: all stores are inside it exactly when the
      line has fewer words than that. */
  method ParseArgs(target: array<char>, n: nat) returns (argc: nat, argv: map<nat, int>)
    requires n < target.Length && target[n] == '\0' && forall i :: 0 <= i < n ==> target[i] != '\0'
    modifies target
    ensures var line := old(target[..n]);
      && argc == |Starts(line, n)| && (forall k :: k in argv <==> 0 <= k <= argc)
      && (forall k :: 0 <= k < argc ==> argv[k] == Starts(line, n)[k]) && argv[argc] == -1
      && CutTo(target[..], line, n) && target[n..] == old(target[n..])
      && ((forall k :: k in argv ==> k < MAX_ARGS) <==> |Words(line)| < MAX_ARGS)
  {
    hide WordStart, CutChar, Starts, WordsAt, CutTo;
    ghost var line := target[..n];
    NoneYet(target[..], line);
    argc, argv := 0, map[];
    var token, save := NextToken(target, n, 0, line);
    while token.Some?
      invariant CutTo(target[..], line, save) && target[n..] == old(target[n..]) && save <= n
      invariant save == 0 || save == n || line[save - 1] == ' '
      invariant |Starts(line, save)| == argc + if token.Some? then 1 else 0
      invariant token.Some? ==> Starts(line, save)[argc] == token.value
      invariant token.None? ==> save == n
      invariant forall k :: k in argv <==> 0 <= k < argc
      invariant forall k :: 0 <= k < argc ==> argv[k] == Starts(line, save)[k]
      decreases n - save, if token.Some? then 1 else 0
    {
      argv := argv[argc := token.value];
      argc := argc + 1;
      token, save := NextToken(target, n, save, line);
    }
    argv := argv[argc := -1];
    assert argc in argv;
  }

  lemma NoneYet(buf: seq<char>, line: string)
    requires |line| < |buf| && line == buf[..|line|] && buf[|line|] == '\0'
    ensures CutTo(buf, line, 0) && Starts(line, 0) == []
  {
  }

  /** N words of one letter, each with a space behind it. */
  function ShortWords(n: nat): (line: string)
    ensures |line| == 2 * n && forall i :: 0 <= i < |line| ==> line[i] == if i % 2 == 0 then 'a' else ' '
  {
    if n == 0 then "" else ShortWords(n - 1) + "a "
  }

  lemma {:induction false} ShortWordsStarts(n: nat, k: nat)
    requires k <= n
    ensures |Starts(ShortWords(n), 2 * k)| == k
  {
    if k > 0 {
      var line := ShortWords(n);
      ShortWordsStarts(n, k - 1);
      assert k > 1 ==> line[2 * k - 3] == ' ';
      assert WordStart(line, 2 * k - 2) && !WordStart(line, 2 * k - 1);
    }
  }

  /** parse_args alone would run off argv on a line of 256 characters. */
  lemma ArgvOverrun()
    ensures |ShortWords(MAX_ARGS)| == 256 && |Words(ShortWords(MAX_ARGS))| >= MAX_ARGS
  {
    ShortWordsStarts(MAX_ARGS, MAX_ARGS);
  }

  // ---------- the stack image ----------

  function Zeros(n: nat): (r: seq<nat>)
    ensures |r| == n && forall i :: 0 <= i < n ==> r[i] == 0
  {
    seq(n, _ => 0)
  }

  /** The bytes of a NUL-terminated string. */
  function CString(w: string): (r: seq<nat>)
    ensures |r| == |w| + 1
  {
    seq(|w|, i requires 0 <= i < |w| => w[i] as nat) + [0]
  }

  /** The strings of the words, the first word lowest. */
  function Strings(words: seq<string>): seq<nat> {
    if words == [] then [] else CString(words[0]) + Strings(words[1..])
  }

  /** A 64-bit value in memory, the low byte first. */
  function Bytes8(x: nat): (r: seq<nat>)
    ensures |r| == 8
  {
    Low(x, 8)
  }

  function Low(x: nat, n: nat): (r: seq<nat>)
    ensures |r| == n && forall i :: 0 <= i < n ==> r[i] < 256
  {
    if n == 0 then [] else [x % 256] + Low(x / 256, n - 1)
  }

  function FromBytes(s: seq<nat>): nat {
    if s == [] then 0 else s[0] + 256 * FromBytes(s[1..])
  }

  function Pow256(n: nat): (r: nat)
    ensures r > 0
  {
    if n == 0 then 1 else 256 * Pow256(n - 1)
  }

  lemma {:induction false} LowRoundTrip(x: nat, n: nat)
    requires x < Pow256(n)
    ensures FromBytes(Low(x, n)) == x
  {
    if n > 0 {
      LowRoundTrip(x / 256, n - 1);
      assert Low(x, n)[1..] == Low(x / 256, n - 1);
    }
  }

  /** The addresses of the strings: word I starts where the strings from I on still fit below the top. */
  function Pointers(words: seq<string>): (r: seq<nat>)
    ensures |r| == 8 * |words|
  {
    if words == [] then [] else Bytes8(Address(words)) + Pointers(words[1..])
  }

  /** Where the strings of WORDS start when they end at the top of the stack. */
  function Address(words: seq<string>): nat {
    if |Strings(words)| <= USER_STACK then USER_STACK - |Strings(words)| else 0
  }

  function Pad(words: seq<string>): nat { (8 - |Strings(words)| % 8) % 8 }

  /** The stack from its pointer up: a return address, argv with its null, padding, and the strings. */
  function Image(words: seq<string>): seq<nat> {
    Zeros(8) + Pointers(words) + Zeros(8) + Zeros(Pad(words)) + Strings(words)
  }

  function StackBytes(words: seq<string>): nat {
    16 + 8 * |words| + Pad(words) + |Strings(words)|
  }

  function LongWord(n: nat): (line: string)
    ensures |line| == n && forall i :: 0 <= i < n ==> line[i] == 'a'
  {
    seq(n, _ => 'a')
  }

  lemma {:induction false} LongWordStarts(n: nat, k: nat)
    requires 0 < k <= n
    ensures Starts(LongWord(n), k) == [0]
  {
    var line := LongWord(n);
    if k == 1 {
      assert WordStart(line, 0);
    } else {
      LongWordStarts(n, k - 1);
      assert line[k - 2] == 'a';
    }
  }

  /** load alone would need more than its one page of stack for a word of 4080 letters. */
  lemma StackOverrun()
    ensures |LongWord(4080)| < PGSIZE && StackBytes(Words(LongWord(4080))) > PGSIZE
  {
    var line := LongWord(4080);
    LongWordStarts(4080, 4080);
    hide Starts;
    var w := Words(line);
    assert |w| == 1 && w[0] == line[0..WordEnd(line, 0)];
    assert WordEnd(line, 0) == 4080;
    assert w == [w[0]];
    assert Strings(w) == CString(w[0]) + Strings(w[1..]);
    hide Strings;
  }

  // ---------- what a program finds there ----------

  /** The stack S starts at address RSP; the value stored at address A. */
  function Load8(s: seq<nat>, rsp: nat, a: nat): nat
    requires rsp <= a && a - rsp + 8 <= |s|
  {
    FromBytes(s[a - rsp..a - rsp + 8])
  }

  ghost predicate StringAt(s: seq<nat>, rsp: nat, a: nat, w: string) {
    && rsp <= a && a - rsp + |w| + 1 <= |s|
    && (forall i :: 0 <= i < |w| ==> s[a - rsp + i] == w[i] as nat) && s[a - rsp + |w|] == 0
  }

  lemma {:induction false} SuffixStrings(words: seq<string>, k: nat)
    requires k <= |words|
    ensures |Strings(words[k..])| <= |Strings(words)|
    ensures Strings(words)[|Strings(words)| - |Strings(words[k..])|..] == Strings(words[k..])
  {
    if k == 0 {
      assert words[0..] == words;
    } else {
      SuffixStrings(words[1..], k - 1);
      assert words[1..][k - 1..] == words[k..];
    }
  }

  lemma {:induction false} PointerAt(words: seq<string>, k: nat)
    requires k < |words|
    ensures Pointers(words)[8 * k..8 * k + 8] == Bytes8(Address(words[k..]))
  {
    hide Bytes8, Address;
    if k == 0 {
      assert words[0..] == words;
    } else {
      PointerAt(words[1..], k - 1);
      assert words[1..][k - 1..] == words[k..];
      assert Pointers(words)[8 * k..8 * k + 8] == Pointers(words[1..])[8 * (k - 1)..8 * (k - 1) + 8];
    }
  }

  lemma ImageSize(words: seq<string>)
    ensures |Image(words)| == StackBytes(words) && StackBytes(words) % 8 == 0
  {
    hide Strings, Pointers, Zeros;
    PadFills(|Strings(words)|);
  }

  lemma PadFills(n: nat)
    ensures (n + (8 - n % 8) % 8) % 8 == 0
  {
  }

  /** The stack decodes back to the words: argv[k] is the address of word k, NUL-terminated, argv[argc] is
      null, the pointer is 8-aligned, and below argv lies a null return address. */
  lemma StackDecodes(words: seq<string>, k: nat)
    requires StackBytes(words) <= USER_STACK && k <= |words|
    ensures |Image(words)| == StackBytes(words)
    ensures var s := Image(words); var rsp := USER_STACK - StackBytes(words); var argv := rsp + 8;
            && rsp % 8 == 0 && Load8(s, rsp, rsp) == 0 && Load8(s, rsp, argv + 8 * |words|) == 0
            && (k < |words| ==> StringAt(s, rsp, Load8(s, rsp, argv + 8 * k), words[k]))
  {
    hide Strings, Pointers, FromBytes, Bytes8, Pad;
    ImageSize(words);
    var s := Image(words);
    var rsp := USER_STACK - StackBytes(words);
    ZeroWord();
    assert s[0..8] == Zeros(8);
    assert s[8 + 8 * |words|..16 + 8 * |words|] == Zeros(8);
    if k < |words| {
      PointerAt(words, k);
      var p := Address(words[k..]);
      assert s[8 + 8 * k..16 + 8 * k] == Pointers(words)[8 * k..8 * k + 8];
      AddressRoundTrip(words[k..]);
      SuffixStrings(words, k);
      StringFound(words, k);
    }
  }

  lemma ZeroWord()
    ensures FromBytes(Zeros(8)) == 0
  {
    var z := Zeros(8);
    assert Low(0, 8) == z by {
      assert Low(0, 1) == [0];
      assert Low(0, 4) == [0, 0, 0, 0];
    }
    assert Pow256(8) > 0;
    LowRoundTrip(0, 8);
  }

  lemma AddressRoundTrip(words: seq<string>)
    ensures FromBytes(Bytes8(Address(words))) == Address(words)
  {
    assert Pow256(4) == 0x1_0000_0000;
    assert Pow256(8) > USER_STACK by { assert Pow256(6) > Pow256(4); }
    LowRoundTrip(Address(words), 8);
  }

  lemma StringFound(words: seq<string>, k: nat)
    requires k < |words| && StackBytes(words) <= USER_STACK
    ensures StringAt(Image(words), USER_STACK - StackBytes(words), Address(words[k..]), words[k])
  {
    ImageSize(words);
    SuffixStrings(words, k);
    hide Pointers, Pad, Zeros;
    var s, t := Image(words), Strings(words[k..]);
    assert s[|s| - |t|..] == t;
    assert t == CString(words[k]) + Strings(words[k + 1..]) by { assert words[k..][1..] == words[k + 1..]; }
    forall i | 0 <= i <= |words[k]| ensures s[|s| - |t| + i] == CString(words[k])[i] {
      assert s[|s| - |t|..][i] == t[i];
    }
  }

  // ---------- load ----------

  lemma NoStrings(words: seq<string>)
    ensures Strings(words[|words|..]) == [] && Pointers(words[|words|..]) == []
  {
  }

  lemma StringsStep(words: seq<string>, i: nat)
    requires i < |words|
    ensures Strings(words[i..]) == CString(words[i]) + Strings(words[i + 1..])
    ensures Pointers(words[i..]) == Bytes8(Address(words[i..])) + Pointers(words[i + 1..])
  {
    assert words[i..][1..] == words[i + 1..];
  }

  /** Word I stands in the buffer, with a NUL behind it. */
  lemma WordInBuffer(buf: seq<char>, line: string, i: nat)
    requires CutTo(buf, line, |line|) && i < |Words(line)|
    ensures var s, w := Starts(line, |line|)[i], Words(line)[i];
            && s + |w| < |buf| && s + |w| <= |line|
            && (forall j :: s <= j < s + |w| ==> buf[j] == w[j - s] == line[j]) && buf[s + |w|] == '\0'
  {
    StartsFacts(line, |line|, Starts(line, |line|)[i]);
    var s := Starts(line, |line|)[i];
    var e := WordEnd(line, s);
    assert Words(line)[i] == line[s..e];
    assert e > s;
    hide Starts, Words, WordsAt;
    forall j | s <= j < e ensures buf[j] == line[j] {
      assert buf[j] == CutChar(line, j);
    }
    if e < |line| { assert buf[e] == CutChar(line, e); }
  }

  /** strlen. */
  method Strlen(buf: array<char>, s: int, ghost n: nat) returns (len: nat)
    requires 0 <= s && s + n < buf.Length && buf[s + n] == '\0' && forall j :: s <= j < s + n ==> buf[j] != '\0'
    ensures len == n
  {
    len := 0;
    while buf[s + len] != '\0'
      invariant len <= n
      decreases n - len
    {
      len := len + 1;
    }
  }

  /** memcpy, from a character buffer. */
  method CopyBytes(buf: array<char>, s: int, n: nat) returns (r: seq<nat>)
    requires 0 <= s && s + n <= buf.Length
    ensures |r| == n && forall j :: 0 <= j < n ==> r[j] == buf[s + j] as nat
  {
    r := [];
    while |r| < n
      invariant |r| <= n && forall j :: 0 <= j < |r| ==> r[j] == buf[s + j] as nat
    {
      r := r + [buf[s + |r|] as nat];
    }
  }

  lemma PadReached(words: seq<string>, j: nat)
    requires j <= Pad(words) && |Strings(words)| + j <= USER_STACK
    ensures (USER_STACK - |Strings(words)| - j) % 8 == 0 <==> j == Pad(words)
  {
    hide Strings;
    PadArithmetic(|Strings(words)|, j);
  }

  lemma PadArithmetic(n: nat, j: nat)
    requires j <= (8 - n % 8) % 8
    ensures (USER_STACK - n - j) % 8 == 0 <==> j == (8 - n % 8) % 8
  {
    assert USER_STACK == 8 * 0x8E9_0000;
    var q, r := n / 8, n % 8;
    assert n == 8 * q + r;
    assert USER_STACK - n - j == 8 * (0x8E9_0000 - q) - (r + j);
  }

  function Addresses(lo: nat, hi: nat): (r: set<nat>)
    ensures forall a :: a in r <==> lo <= a < hi
    decreases hi - lo
  {
    if lo >= hi then {} else {lo} + Addresses(lo + 1, hi)
  }

  lemma Poked(bytes: seq<nat>, a: nat, i: nat, n: nat, chunk: seq<nat>)
    requires i < n == |chunk| && a + n <= |bytes| && bytes[a..a + i] == chunk[..i]
    ensures bytes[a + i := chunk[i]][a..a + i + 1] == chunk[..i + 1]
    ensures bytes[a + i := chunk[i]][a + n..] == bytes[a + n..]
  {
    var b := bytes[a + i := chunk[i]];
    assert b[a..a + i + 1] == bytes[a..a + i] + [chunk[i]];
    assert chunk[..i + 1] == chunk[..i] + [chunk[i]];
  }

  /** The stack pointer of the interrupt frame, and the memory from BASE up to USER_STACK, of which
      setup_stack maps only the last page. */
  class UserStack {
    const base: nat
    var rsp: nat
    var bytes: seq<nat>
    ghost var written: set<nat>  // the addresses load has stored to

    ghost predicate Valid()
      reads this
    {
      && base <= rsp <= USER_STACK && |bytes| == USER_STACK - base
      && forall a :: a in written <==> rsp <= a < USER_STACK
    }

    ghost function Top(): seq<nat>
      requires Valid()
      reads this
    {
      bytes[rsp - base..]
    }

    /** setup_stack. */
    constructor (base: nat)
      requires base <= USER_STACK
      ensures Valid() && rsp == USER_STACK && Top() == [] && this.base == base
    {
      this.base, rsp := base, USER_STACK;
      bytes, written := Zeros(USER_STACK - base), {};
    }

    /** rsp -= |chunk|, then memcpy or memset to rsp. */
    method Push(chunk: seq<nat>)
      requires Valid() && rsp - |chunk| >= base
      modifies this
      ensures Valid() && rsp == old(rsp) - |chunk| && Top() == chunk + old(Top())
    {
      rsp := rsp - |chunk|;
      written := written + Addresses(rsp, old(rsp));
      var i := 0;
      while i < |chunk|
        invariant 0 <= i <= |chunk| && Valid() && rsp == old(rsp) - |chunk|
        invariant bytes[rsp - base..rsp - base + i] == chunk[..i]
        invariant bytes[rsp - base + |chunk|..] == old(Top())
      {
        Poked(bytes, rsp - base, i, |chunk|, chunk);
        bytes := bytes[rsp - base + i := chunk[i]];
        i := i + 1;
      }
      assert chunk[..i] == chunk;
      assert bytes[rsp - base..] == bytes[rsp - base..rsp - base + i] + bytes[rsp - base + |chunk|..];
    }

    /** Pads the strings with zero bytes until the stack pointer is a multiple of 8. */
    method AlignTo8(ghost words: seq<string>)
      requires Valid() && Top() == Strings(words) && rsp == USER_STACK - |Strings(words)|
      requires StackBytes(words) <= USER_STACK - base
      modifies this
      ensures Valid() && Top() == Zeros(Pad(words)) + Strings(words) && rsp == USER_STACK - |Strings(words)| - Pad(words)
    {
      hide Strings, Pad, Zeros;
      ghost var j := 0;
      ghost var low := Top();
      PadReached(words, 0);
      ZerosBelow(low, 0);
      while rsp % 8 != 0
        invariant Valid() && 0 <= j <= Pad(words) && Top() == Zeros(j) + low && rsp == USER_STACK - |low| - j
        invariant rsp % 8 == 0 <==> j == Pad(words)
        decreases Pad(words) - j
      {
        PushZero();
        ZerosBelow(low, j);
        j := j + 1;
        PadReached(words, j);
      }
    }

    /** The argument part of load. It stays inside the mapped page exactly when the image fits one page.
        ARGV holds the positions of the words of LINE in BUF. */
    method SetupArgs(buf: array<char>, argv: map<nat, int>, argc: nat, ghost line: string) returns (rdi: nat, rsi: nat)
      requires Valid() && rsp == USER_STACK && Top() == [] && StackBytes(Words(line)) <= USER_STACK - base
      requires CutTo(buf[..], line, |line|) && forall i :: 0 <= i < |line| ==> line[i] != '\0'
      requires argc == |Starts(line, |line|)|
      requires forall k :: 0 <= k < argc ==> k in argv && argv[k] == Starts(line, |line|)[k]
      modifies this
      ensures Valid() && Top() == Image(Words(line)) && rsp == USER_STACK - StackBytes(Words(line))
      ensures rdi == |Words(line)| && rsi == rsp + 8
      ensures (forall a :: a in written ==> a >= USER_STACK - PGSIZE) <==> StackBytes(Words(line)) <= PGSIZE
    {
      hide Strings, Pointers, Words, Starts, CutTo, Bytes8, WordStart, Address, Pad, Zeros;
      ghost var words := Words(line);
      var rspArr := PushStrings(buf, argv, argc, line);
      AlignTo8(words);
      ghost var low := Top();
      Push(Zeros(8));
      var i := argc;
      NoStrings(words);
      while i > 0
        invariant 0 <= i <= argc && Valid() && Top() == Pointers(words[i..]) + Zeros(8) + low
        invariant rsp == USER_STACK - |low| - 8 - 8 * (argc - i)
        invariant forall k :: 0 <= k < argc ==> rspArr[k] == Address(words[k..])
      {
        i := i - 1;
        PushPointer(words, i, low);
        Push(Bytes8(rspArr[i]));
      }
      ImageIs(words, low);
      Push(Zeros(8));
      rdi, rsi := argc, rsp + 8;
      WrittenFrom(USER_STACK - PGSIZE);
    }

    lemma PushPointer(words: seq<string>, i: nat, low: seq<nat>)
      requires i < |words|
      ensures Bytes8(Address(words[i..])) + (Pointers(words[i + 1..]) + Zeros(8) + low) == Pointers(words[i..]) + Zeros(8) + low
      ensures |Bytes8(Address(words[i..]))| == 8
    {
      hide Bytes8, Address, Zeros, Strings;
      StringsStep(words, i);
    }

    lemma ImageIs(words: seq<string>, low: seq<nat>)
      requires low == Zeros(Pad(words)) + Strings(words)
      ensures words[0..] == words && Zeros(8) + (Pointers(words) + Zeros(8) + low) == Image(words)
      ensures |Image(words)| == StackBytes(words) && |Zeros(8)| == 8
    {
      hide Zeros, Strings, Pointers, Pad;
    }

    /** The stores go down to rsp. */
    lemma WrittenFrom(lo: nat)
      requires Valid() && rsp < USER_STACK
      ensures (forall a :: a in written ==> a >= lo) <==> rsp >= lo
    {
      assert rsp in written;
    }

    /** rsp--, then a zero byte there. */
    method PushZero()
      requires Valid() && rsp > base
      modifies this
      ensures Valid() && rsp == old(rsp) - 1 && Top() == [0] + old(Top())
    {
      rsp := rsp - 1;
      written := written + {rsp};
      bytes := bytes[rsp - base := 0];
    }

    lemma ZerosBelow(low: seq<nat>, j: nat)
      ensures Zeros(0) + low == low && [0] + (Zeros(j) + low) == Zeros(j + 1) + low
    {
    }

    /** Copies the words to the stack, the last one first, and notes where each went. */
    method PushStrings(buf: array<char>, argv: map<nat, int>, argc: nat, ghost line: string) returns (rspArr: array<nat>)
      requires Valid() && rsp == USER_STACK && Top() == [] && |Strings(Words(line))| <= USER_STACK - base
      requires CutTo(buf[..], line, |line|) && forall i :: 0 <= i < |line| ==> line[i] != '\0'
      requires argc == |Starts(line, |line|)|
      requires forall k :: 0 <= k < argc ==> k in argv && argv[k] == Starts(line, |line|)[k]
      modifies this
      ensures Valid() && Top() == Strings(Words(line)) && rsp == USER_STACK - |Strings(Words(line))|
      ensures fresh(rspArr) && rspArr.Length == argc == |Words(line)|
      ensures forall k :: 0 <= k < argc ==> rspArr[k] == Address(Words(line)[k..])
    {
      hide Strings, Words, Starts, CutTo, WordStart, WordEnd;
      ghost var words := Words(line);
      rspArr := new nat[argc];
      var i := argc;
      NoStrings(words);
      while i > 0
        invariant 0 <= i <= argc && Valid() && Top() == Strings(words[i..]) && rsp == USER_STACK - |Strings(words[i..])|
        invariant fresh(rspArr) && forall k :: i <= k < argc ==> rspArr[k] == Address(words[k..])
      {
        i := i - 1;
        WordInBuffer(buf[..], line, i);
        SuffixStrings(words, i);
        StringsStep(words, i);
        var len := Strlen(buf, argv[i], |words[i]|);
        var chunk := CopyBytes(buf, argv[i], len + 1);
        assert chunk == CString(words[i]);
        Push(chunk);
        rspArr[i] := rsp;
      }
      assert words[0..] == words;
    }
  }

  // ---------- process_exec ----------

  lemma {:induction false} StartsFew(line: string, hi: nat)
    requires hi <= |line|
    ensures |Starts(line, hi)| <= hi
  {
    if hi > 0 { StartsFew(line, hi - 1); }
  }

  /** The next word starts behind the space that ends this one. */
  lemma NextWord(line: string, i: nat, j: nat)
    requires WordStart(line, i) && WordStart(line, j) && i < j
    ensures WordEnd(line, i) < j
  {
    assert line[j - 1] == ' ' && line[j] != ' ';
    assert i <= j - 1;
  }

  /** The strings of the words from the I-th on are no longer than the rest of the line and its NUL. */
  lemma {:induction false} StringsBound(line: string, i: nat)
    requires i < |Words(line)|
    ensures var s := Starts(line, |line|); s[i] <= |line| && |Strings(Words(line)[i..])| <= |line| + 1 - s[i]
    decreases |Words(line)| - i
  {
    var s, w := Starts(line, |line|), Words(line);
    StartsFacts(line, |line|, s[i]);
    assert s[i] in s;
    hide Starts, Words;
    assert w[i] == line[s[i]..WordEnd(line, s[i])] by { WordAt(line, i); }
    assert Strings(w[i..]) == CString(w[i]) + Strings(w[i + 1..]) by { assert w[i..][0] == w[i] && w[i..][1..] == w[i + 1..]; }
    if i + 1 < |w| {
      StringsBound(line, i + 1);
      StartsRise(line, |line|);
      StartsFacts(line, |line|, s[i + 1]);
      assert s[i + 1] in s;
      NextWord(line, s[i], s[i + 1]);
    } else {
      assert w[i + 1..] == [];
    }
  }

  lemma WordAt(line: string, i: nat)
    requires i < |Words(line)| && Starts(line, |line|)[i] <= |line|
    ensures Words(line)[i] == line[Starts(line, |line|)[i]..WordEnd(line, Starts(line, |line|)[i])]
  {
  }

  /** A line that fits process_exec's buffer has few enough words for argv and a small enough image for the
      stack page. */
  lemma ShortLineFits(line: string)
    requires |line| < MAX_BUF
    ensures |Words(line)| < MAX_ARGS && StackBytes(Words(line)) <= PGSIZE
  {
    StartsFew(line, |line|);
    if |Words(line)| > 0 {
      StringsBound(line, 0);
      assert Words(line)[0..] == Words(line);
    }
  }

  /** Where strlen (LINE) + 1 characters are stored. */
  predicate Stored(line: string, k: nat) { k <= |line| }

  /** The copying part of process_exec, from a line that ends at N. The buffer is a map, so that a store past
      its end shows: the line stays inside exactly if it is shorter than 128 characters. */
  method CopyLine(file: array<char>, n: nat) returns (copy: map<nat, char>, first: string)
    requires n < file.Length && file[n] == '\0' && forall i :: 0 <= i < n ==> file[i] != '\0'
    ensures forall k :: k in copy <==> Stored(file[..n], k)
    ensures forall k :: k in copy ==> k <= n && copy[k] == file[k]
    ensures (forall k :: k in copy ==> k < MAX_BUF) <==> n < MAX_BUF
    ensures |first| < MAX_BUF && |first| <= n && first == file[..|first|] && ' ' !in first
    ensures |first| == MAX_BUF - 1 || |first| == n || file[|first|] == ' '
  {
    copy := map k: nat | k <= n :: file[k];
    assert n in copy;
    first := "";
    var i := 0;
    while copy[i] != '\0' && copy[i] != ' ' && i < MAX_BUF - 1
      invariant 0 <= i <= n && i < MAX_BUF && |first| == i && first == file[..i] && ' ' !in first
      decreases n - i
    {
      first := first + [copy[i]];
      i := i + 1;
    }
  }

  /** 64 words on a line of 128 characters: its NUL is stored past the end of process_exec's buffer, while
      parse_args and load could still hold it. */
  lemma BufferOverrun()
    ensures |ShortWords(64)| == MAX_BUF && Stored(ShortWords(64), MAX_BUF)
    ensures |Words(ShortWords(64))| < MAX_ARGS
  {
    ShortWordsStarts(64, 64);
  }

  /** parse_args and load together, on a line that fits process_exec's buffer: the program finds its words. */
  method LoadArguments(target: array<char>, n: nat) returns (stack: UserStack, rdi: nat, rsi: nat)
    requires n < target.Length && target[n] == '\0' && forall i :: 0 <= i < n ==> target[i] != '\0'
    requires n < MAX_BUF
    modifies target
    ensures stack.Valid() && stack.base == USER_STACK - PGSIZE
    ensures var words, s := Words(old(target[..n])), stack.Top();
      && rdi == |words| && rsi == stack.rsp + 8 && stack.rsp % 8 == 0
      && |s| == StackBytes(words) && Load8(s, stack.rsp, rsi + 8 * rdi) == 0
      && forall k: nat {:trigger words[k]} :: k < |words| ==> StringAt(s, stack.rsp, Load8(s, stack.rsp, rsi + 8 * k), words[k])
  {
    hide Words, Starts, CutTo, Image, StringAt, Load8;
    ghost var line := target[..n];
    ghost var words := Words(line);
    ShortLineFits(line);
    var argc, argv := ParseArgs(target, n);
    stack := new UserStack(USER_STACK - PGSIZE);
    rdi, rsi := stack.SetupArgs(target, argv, argc, line);
    StackDecodes(words, |words|);
    forall k: nat {:trigger words[k]} | k < |words|
      ensures StringAt(stack.Top(), stack.rsp, Load8(stack.Top(), stack.rsp, rsi + 8 * k), words[k]) {
      StackDecodes(words, k);
    }
  }
}
