/**
 Handing listening sockets over to a restarted process: what the parent puts into the child's
 environment and descriptor table, what the child takes from them, and what it does with the
 addresses it is then asked to listen on.
 */
module Gracenet {
  import opened Common

  datatype Addr = Addr(network: string, text: string)

  /** A listener is known by the socket behind it. */
  datatype Listener = Listener(addr: Addr, socket: nat)

  // ---------------------------------------------------------------- addresses

  function TrimPrefix(s: string, prefix: string): string {
    if prefix <= s then s[|prefix|..] else s
  }

  predicate IsSameAddr(a: Addr, b: Addr) {
    a.network == b.network
    && (a.text == b.text
        || TrimPrefix(TrimPrefix(a.text, "[::]"), "0.0.0.0") == TrimPrefix(TrimPrefix(b.text, "[::]"), "0.0.0.0"))
  }

  /** The canonical form of an address: wildcard hosts of both families are dropped. */
  function Key(a: Addr): Addr {
    Addr(a.network, TrimPrefix(TrimPrefix(a.text, "[::]"), "0.0.0.0"))
  }

  lemma SameAddrIffSameKey(a: Addr, b: Addr)
    ensures IsSameAddr(a, b) <==> Key(a) == Key(b)
  {
  }

  /** A text that names no wildcard host. */
  predicate NoWildcard(p: string) {
    !("[::]" <= p) && !("0.0.0.0" <= p)
  }

  /** The two wildcard hosts and no host at all are the same; apart from that only equal addresses are. */
  lemma WildcardForms(n: string, m: string, p: string, q: string)
    requires NoWildcard(p) && NoWildcard(q)
    ensures IsSameAddr(Addr(n, "[::]" + p), Addr(n, p)) && IsSameAddr(Addr(n, p), Addr(n, "[::]" + p))
    ensures IsSameAddr(Addr(n, "0.0.0.0" + p), Addr(n, p)) && IsSameAddr(Addr(n, p), Addr(n, "0.0.0.0" + p))
    ensures IsSameAddr(Addr(n, "[::]" + p), Addr(n, "0.0.0.0" + p))
    ensures IsSameAddr(Addr(n, p), Addr(m, q)) <==> n == m && p == q
    ensures IsSameAddr(Addr(n, "[::]" + p), Addr(m, q)) <==> n == m && p == q
    ensures IsSameAddr(Addr(n, "0.0.0.0" + p), Addr(m, q)) <==> n == m && p == q
  {
    var six, four := "[::]" + p, "0.0.0.0" + p;
    assert six[|"[::]"|..] == p && four[|"0.0.0.0"|..] == p;
    assert four[0] == '0' && !("[::]" <= four);
  }

  lemma OtherNetwork(a: Addr, b: Addr)
    requires a.network != b.network
    ensures !IsSameAddr(a, b)
  {
  }

  // ---------------------------------------------------------------- numbers in the environment

  function Digit(d: nat): char
    requires d < 10
  {
    ('0' as int + d) as char
  }

  function Itoa(n: nat): string {
    if n < 10 then [Digit(n)] else Itoa(n / 10) + [Digit(n % 10)]
  }

  function Digits(s: string): Option<nat> {
    if s == "" then None
    else
      var c := s[|s| - 1];
      if !('0' <= c <= '9') then None
      else if |s| == 1 then Some(c as int - '0' as int)
      else match Digits(s[..|s| - 1])
        case None => None
        case Some(n) => Some(n * 10 + (c as int - '0' as int))
  }

  /** Go's `strconv.Atoi`, without its range check. */
  function Atoi(s: string): Option<int> {
    if s != "" && (s[0] == '+' || s[0] == '-') then
      match Digits(s[1..])
      case None => None
      case Some(n) => Some(if s[0] == '-' then 0 - n else n)
    else match Digits(s)
      case None => None
      case Some(n) => Some(n)
  }

  lemma {:induction false} AtoiOfItoa(n: nat)
    ensures Itoa(n) != "" && '0' <= Itoa(n)[0] <= '9'
    ensures Digits(Itoa(n)) == Some(n) && Atoi(Itoa(n)) == Some(n)
  {
    if n >= 10 {
      AtoiOfItoa(n / 10);
      var s := Itoa(n);
      assert s[..|s| - 1] == Itoa(n / 10);
    }
  }

  const DIGITS := "0123456789"

  /** Decimal digits, the most significant first; a sign may come before them when they are read. */
  lemma DecimalForm(n: nat, d: nat)
    requires d < 10
    ensures Itoa(d) == [DIGITS[d]]
    ensures n >= 1 ==> Itoa(10 * n + d) == Itoa(n) + [DIGITS[d]]
    ensures Atoi("-" + Itoa(n)).Some? && Atoi("-" + Itoa(n)).value == 0 - n
    ensures Atoi("+" + Itoa(n)) == Some(n) && Atoi("") == None
  {
    AtoiOfItoa(n);
    assert ("-" + Itoa(n))[1..] == Itoa(n) && ("+" + Itoa(n))[1..] == Itoa(n);
    assert DIGITS[d] == Digit(d);
    if n >= 1 {
      assert (10 * n + d) / 10 == n && (10 * n + d) % 10 == d;
    }
  }

  // ---------------------------------------------------------------- environment

  const COUNT_PREFIX := "LISTEN_FDS="

  function CountEntries(env: seq<string>): nat {
    if env == [] then 0
    else CountEntries(env[..|env| - 1]) + if COUNT_PREFIX <= env[|env| - 1] then 1 else 0
  }

  /** `os.Getenv("LISTEN_FDS")`: the first entry counts, an absent one reads as empty. */
  function GetCount(env: seq<string>): string {
    if env == [] then ""
    else if COUNT_PREFIX <= env[0] then env[0][|COUNT_PREFIX|..]
    else GetCount(env[1..])
  }

  /** The entries that do not set the count. */
  function Others(env: seq<string>): seq<string> {
    if env == [] then []
    else Others(env[..|env| - 1]) + if COUNT_PREFIX <= env[|env| - 1] then [] else [env[|env| - 1]]
  }

  /** Every entry that does not set the count is kept, and in its place. */
  lemma {:induction false} OthersKept(a: seq<string>, b: seq<string>, e: string)
    ensures Others(a + b) == Others(a) + Others(b) && Others([]) == []
    ensures Others([e]) == if "LISTEN_FDS=" <= e then [] else [e]
  {
    assert [e][..0] == [];
    if b == [] {
      assert a + b == a;
    } else {
      var n := |b| - 1;
      assert (a + b)[..|a| + n] == a + b[..n];
      OthersKept(a, b[..n], e);
    }
  }

  /** It is there as often as before. */
  lemma {:induction false} OthersAsOften(env: seq<string>, e: string)
    ensures multiset(Others(env))[e] == if "LISTEN_FDS=" <= e then 0 else multiset(env)[e]
  {
    if env != [] {
      var n := |env| - 1;
      OthersAsOften(env[..n], e);
      assert env == env[..n] + [env[n]];
    }
  }

  /** The first entry that sets the count is the one that counts. */
  lemma {:induction false} FirstCountCounts(before: seq<string>, text: string, rest: seq<string>)
    requires forall j :: 0 <= j < |before| ==> !("LISTEN_FDS=" <= before[j])
    ensures GetCount(before + ["LISTEN_FDS=" + text] + rest) == text && GetCount(before) == ""
  {
    var all := before + ["LISTEN_FDS=" + text] + rest;
    if before == [] {
      assert ("LISTEN_FDS=" + text)[|COUNT_PREFIX|..] == text;
    } else {
      FirstCountCounts(before[1..], text, rest);
      assert all[1..] == before[1..] + ["LISTEN_FDS=" + text] + rest;
    }
  }

  /** The environment `StartProcess` builds: the old count is replaced by the number of listeners. */
  method ChildEnv(env: seq<string>, count: nat) returns (child: seq<string>)
    ensures child == Others(env) + [COUNT_PREFIX + Itoa(count)]
    ensures CountEntries(child) == 1 && GetCount(child) == Itoa(count)
  {
    child := [];
    var k := 0;
    while k < |env|
      invariant 0 <= k <= |env| && child == Others(env[..k])
      invariant forall j :: 0 <= j < |child| ==> !(COUNT_PREFIX <= child[j])
    {
      assert env[..k + 1][..k] == env[..k];
      if !(COUNT_PREFIX <= env[k]) {
        child := child + [env[k]];
      }
      k := k + 1;
    }
    assert env[..k] == env;
    var entry := COUNT_PREFIX + Itoa(count);
    assert entry[|COUNT_PREFIX|..] == Itoa(count);
    LastEntryCounts(child, entry);
    child := child + [entry];
  }

  lemma {:induction false} NoEntries(env: seq<string>)
    requires forall j :: 0 <= j < |env| ==> !(COUNT_PREFIX <= env[j])
    ensures CountEntries(env) == 0
  {
    if env != [] {
      NoEntries(env[..|env| - 1]);
    }
  }

  lemma {:induction false} FindsLast(env: seq<string>, entry: string)
    requires COUNT_PREFIX <= entry && forall j :: 0 <= j < |env| ==> !(COUNT_PREFIX <= env[j])
    ensures GetCount(env + [entry]) == entry[|COUNT_PREFIX|..]
  {
    if env != [] {
      FindsLast(env[1..], entry);
      assert (env + [entry])[1..] == env[1..] + [entry];
    }
  }

  lemma LastEntryCounts(env: seq<string>, entry: string)
    requires COUNT_PREFIX <= entry && forall j :: 0 <= j < |env| ==> !(COUNT_PREFIX <= env[j])
    ensures CountEntries(env + [entry]) == 1 && GetCount(env + [entry]) == entry[|COUNT_PREFIX|..]
  {
    assert (env + [entry])[..|env|] == env;
    NoEntries(env);
    FindsLast(env, entry);
  }

  // ---------------------------------------------------------------- the listeners of a process

  /** A descriptor table: a listener, or something else. The first three are the standard streams. */
  type Files = seq<Option<Listener>>

  function Descriptors(ls: seq<Listener>): (r: Files)
    ensures |r| == |ls| && forall k :: 0 <= k < |r| ==> r[k] == Some(ls[k])
  {
    seq(|ls|, k requires 0 <= k < |ls| => Some(ls[k]))
  }

  /** The files `StartProcess` hands over: the listeners follow the standard streams. */
  function ChildFiles(active: seq<Listener>): Files {
    [None, None, None] + Descriptors(active)
  }

  predicate IsListener(files: Files, i: int) {
    0 <= i < |files| && files[i].Some?
  }

  /** How many of the first `n` descriptors from 3 on are listeners, up to the first that is not. */
  function Usable(files: Files, n: nat): (k: nat)
    ensures k <= n && (k > 0 ==> 3 + k <= |files|)
    ensures forall i :: 3 <= i < 3 + k ==> IsListener(files, i)
    ensures k < n ==> !IsListener(files, 3 + k)
  {
    if n == 0 then 0
    else
      var k := Usable(files, n - 1);
      if k == n - 1 && IsListener(files, 3 + k) then n else k
  }

  lemma UsableIs(files: Files, n: nat, k: nat)
    requires k <= n && (forall i :: 3 <= i < 3 + k ==> IsListener(files, i)) && (k < n ==> !IsListener(files, 3 + k))
    ensures Usable(files, n) == k
  {
    var u := Usable(files, n);
    assert k < u ==> IsListener(files, 3 + k);
    assert u < k ==> IsListener(files, 3 + u);
  }

  /** What a process has inherited after `inherit`, and whether that reported success: the descriptors
      from 3 on, as many as the environment says, up to the first that is no listener. Only the first
      call does anything; a count that is no number takes nothing. */
  function AfterInherit(once: bool, inherited: Files, env: seq<string>, files: Files): (Files, bool) {
    if once || GetCount(env) == "" then (inherited, true)
    else match Atoi(GetCount(env))
      case None => (inherited, false)
      case Some(count) =>
        var n := if count < 0 then 0 else count;
        var k := Usable(files, n);
        (inherited + if k == 0 then [] else files[3..3 + k], k == n)
  }

  /** What is left of the inherited listeners, and their canonical addresses. */
  function Left(inherited: Files): multiset<Listener> {
    if inherited == [] then multiset{}
    else
      var l := inherited[|inherited| - 1];
      Left(inherited[..|inherited| - 1]) + if l.Some? then multiset{l.value} else multiset{}
  }

  function LeftKeys(inherited: Files): multiset<Addr> {
    if inherited == [] then multiset{}
    else
      var l := inherited[|inherited| - 1];
      LeftKeys(inherited[..|inherited| - 1]) + if l.Some? then multiset{Key(l.value.addr)} else multiset{}
  }

  function Keys(addrs: seq<Addr>): multiset<Addr> {
    if addrs == [] then multiset{} else multiset{Key(addrs[0])} + Keys(addrs[1..])
  }

  lemma {:induction false} LeftTake(inherited: Files, i: nat)
    requires i < |inherited| && inherited[i].Some?
    ensures Left(inherited) == Left(inherited[i := None]) + multiset{inherited[i].value}
  {
    var n := |inherited| - 1;
    if i < n {
      LeftTake(inherited[..n], i);
      assert inherited[i := None][..n] == inherited[..n][i := None];
    } else {
      assert inherited[i := None][..n] == inherited[..n];
    }
  }

  lemma {:induction false} LeftKeysTake(inherited: Files, i: nat)
    requires i < |inherited| && inherited[i].Some?
    ensures LeftKeys(inherited) == LeftKeys(inherited[i := None]) + multiset{Key(inherited[i].value.addr)}
  {
    hide Key;
    var n := |inherited| - 1;
    if i < n {
      LeftKeysTake(inherited[..n], i);
      assert inherited[i := None][..n] == inherited[..n][i := None];
    } else {
      assert inherited[i := None][..n] == inherited[..n];
    }
  }

  /** A key is left only if a listener for it is. */
  lemma {:induction false} NoListenerNoKey(inherited: Files, addr: Addr)
    requires forall j :: 0 <= j < |inherited| && inherited[j].Some? ==> !IsSameAddr(inherited[j].value.addr, addr)
    ensures Key(addr) !in LeftKeys(inherited)
  {
    if inherited != [] {
      var n := |inherited| - 1;
      NoListenerNoKey(inherited[..n], addr);
      if inherited[n].Some? {
        SameAddrIffSameKey(inherited[n].value.addr, addr);
      }
    }
  }

  lemma {:induction false} SameNumberLeft(inherited: Files)
    ensures |Left(inherited)| == |LeftKeys(inherited)|
  {
    if inherited != [] {
      SameNumberLeft(inherited[..|inherited| - 1]);
    }
  }

  lemma {:induction false} AllLeft(ls: seq<Listener>)
    ensures Left(Descriptors(ls)) == multiset(ls)
    ensures LeftKeys(Descriptors(ls)) == KeysOf(ls)
  {
    if ls != [] {
      var n := |ls| - 1;
      AllLeft(ls[..n]);
      LeftSnoc(ls);
      KeysSnoc(ls);
      hide Left;
      hide LeftKeys;
      hide KeysOf;
      hide Key;
    }
  }

  lemma LeftSnoc(ls: seq<Listener>)
    requires ls != []
    ensures var front, l := ls[..|ls| - 1], ls[|ls| - 1];
            && Left(Descriptors(ls)) == Left(Descriptors(front)) + multiset{l}
            && multiset(ls) == multiset(front) + multiset{l}
            && LeftKeys(Descriptors(ls)) == LeftKeys(Descriptors(front)) + multiset{Key(l.addr)}
  {
    hide Key;
    var n := |ls| - 1;
    assert Descriptors(ls)[..n] == Descriptors(ls[..n]);
    assert ls == ls[..n] + [ls[n]];
  }

  lemma KeysSnoc(ls: seq<Listener>)
    requires ls != []
    ensures KeysOf(ls) == KeysOf(ls[..|ls| - 1]) + multiset{Key(ls[|ls| - 1].addr)}
  {
    hide Key;
    var n := |ls| - 1;
    assert Map(KeyOf, ls) == Map(KeyOf, ls[..n]) + [KeyOf(ls[n])];
  }

  function KeyOf(l: Listener): Addr {
    Key(l.addr)
  }

  function KeysOf(ls: seq<Listener>): multiset<Addr> {
    multiset(Map(KeyOf, ls))
  }

  class Net {
    var inherited: Files
    var active: seq<Listener>
    var once: bool
    /** Sockets opened fresh by this process. */
    var newSockets: seq<Listener>

    constructor ()
      ensures inherited == [] && active == [] && newSockets == [] && !once
    {
      inherited, active, once, newSockets := [], [], false, [];
    }

    ghost function Inheritance(env: seq<string>, files: Files): (Files, bool)
      reads this
    {
      AfterInherit(once, inherited, env, files)
    }

    /** `inherit`: exactly the counted descriptors, in order, or an error if one of them is no listener. */
    method Inherit(env: seq<string>, files: Files) returns (ok: bool)
      requires |files| >= 3
      modifies this`once, this`inherited
      ensures once && (inherited, ok) == old(Inheritance(env, files))
      ensures !old(once) && GetCount(env) != "" && Atoi(GetCount(env)).Some? ==>
                var n := Atoi(GetCount(env)).value;
                && (ok <==> forall i :: 3 <= i < 3 + n ==> IsListener(files, i))
                && (ok && n >= 0 ==> 3 + n <= |files| && inherited == old(inherited) + files[3..3 + n])
    {
      ok := true;
      if once {
        return;
      }
      once := true;
      var text := GetCount(env);
      if text == "" {
        return;
      }
      var count := Atoi(text);
      if count.None? {
        return false;
      }
      ghost var n := if count.value < 0 then 0 else count.value;
      var i := 3;
      while i < 3 + count.value
        invariant 3 <= i <= |files| && i <= 3 + n && once
        invariant forall j :: 3 <= j < i ==> IsListener(files, j)
        invariant inherited == old(inherited) + files[3..i]
      {
        if i >= |files| || files[i].None? {
          UsableIs(files, n, i - 3);
          return false;
        }
        inherited := inherited + [files[i]];
        i := i + 1;
      }
      UsableIs(files, n, i - 3);
    }

    /** The search that `ListenTCP`, `ListenUnix` and `Append` share: the first inherited listener for
        this address is used up. */
    method Reuse(addr: Addr) returns (l: Option<Listener>, i: nat)
      modifies this`inherited, this`active
      ensures l.None? ==> inherited == old(inherited) && active == old(active)
      ensures l.None? <==> forall j :: 0 <= j < |old(inherited)| && old(inherited)[j].Some? ==>
                                         !IsSameAddr(old(inherited)[j].value.addr, addr)
      ensures l.Some? ==> i < |old(inherited)| && old(inherited)[i] == l && IsSameAddr(l.value.addr, addr)
                          && inherited == old(inherited)[i := None] && active == old(active) + [l.value]
    {
      i := 0;
      while i < |inherited|
        invariant 0 <= i <= |inherited| && inherited == old(inherited) && active == old(active)
        invariant forall j :: 0 <= j < i && inherited[j].Some? ==> !IsSameAddr(inherited[j].value.addr, addr)
      {
        if inherited[i].Some? && IsSameAddr(inherited[i].value.addr, addr) {
          l := inherited[i];
          inherited := inherited[i := None];
          active := active + [l.value];
          return;
        }
        i := i + 1;
      }
      l := None;
    }

    /** `ListenTCP` and `ListenUnix`: `anew` is what opening afresh would give; it may have another address
        than the one asked for, as when the port is left to the system. Nothing happens if the
        inheritance fails; a listener that was inherited for the address is used, and no socket opened;
        otherwise one is opened and nothing inherited is used. */
    method Listen(env: seq<string>, files: Files, addr: Addr, anew: Option<Listener>) returns (l: Option<Listener>)
      requires |files| >= 3
      modifies this
      ensures once && active == old(active) + if l.Some? then [l.value] else []
      ensures var (start, ok) := old(Inheritance(env, files));
              && (!ok ==> l.None? && inherited == start && newSockets == old(newSockets))
              && (ok && Key(addr) in LeftKeys(start) ==>
                    && l.Some? && Key(l.value.addr) == Key(addr) && newSockets == old(newSockets)
                    && Left(start) == Left(inherited) + multiset{l.value}
                    && LeftKeys(start) == LeftKeys(inherited) + multiset{Key(addr)})
              && (ok && Key(addr) !in LeftKeys(start) ==>
                    && inherited == start
                    && l == anew && newSockets == old(newSockets) + if l.Some? then [l.value] else [])
    {
      var ok := Inherit(env, files);
      if !ok {
        return None;
      }
      ghost var before := inherited;
      var i;
      l, i := Reuse(addr);
      if l.Some? {
        SameAddrIffSameKey(l.value.addr, addr);
        LeftTake(before, i);
        LeftKeysTake(before, i);
        return;
      }
      NoListenerNoKey(before, addr);
      if anew.Some? {
        l := anew;
        active := active + [l.value];
        newSockets := newSockets + [l.value];
      }
    }

    /** An active listener has this address already. */
    ghost predicate Taken(addr: Addr)
      reads this
    {
      exists j :: 0 <= j < |active| && IsSameAddr(active[j].addr, addr)
    }

    /** `Append`: an inherited listener for the address is used in place of `ln`; otherwise `ln` joins,
        unless an active listener has its address already. */
    method Append(env: seq<string>, files: Files, ln: Listener) returns (ok: bool)
      requires |files| >= 3
      modifies this`once, this`inherited, this`active
      ensures var (start, good) := old(Inheritance(env, files));
              && (!ok <==> !good || (Key(ln.addr) !in LeftKeys(start) && old(Taken(ln.addr))))
              && (!ok ==> inherited == start && active == old(active))
              && (ok ==> |active| == |old(active)| + 1 && active[..|old(active)|] == old(active)
                         && Key(active[|old(active)|].addr) == Key(ln.addr))
              && (ok && Key(ln.addr) !in LeftKeys(start) ==> active[|old(active)|] == ln && inherited == start)
              && (ok && Key(ln.addr) in LeftKeys(start) ==>
                    Left(start) == Left(inherited) + multiset{active[|old(active)|]})
    {
      ok := Inherit(env, files);
      if !ok {
        return false;
      }
      ghost var before := inherited;
      var l, i := Reuse(ln.addr);
      if l.Some? {
        SameAddrIffSameKey(l.value.addr, ln.addr);
        LeftTake(before, i);
        LeftKeysTake(before, i);
        return true;
      }
      NoListenerNoKey(before, ln.addr);
      var k := 0;
      while k < |active|
        invariant 0 <= k <= |active|
        invariant forall j :: 0 <= j < k ==> !IsSameAddr(active[j].addr, ln.addr)
      {
        if IsSameAddr(active[k].addr, ln.addr) {
          return false;
        }
        k := k + 1;
      }
      active := active + [ln];
      return true;
    }

    /** Listening on addresses that are, up to order and wildcard form, those of the inherited
        listeners: each of them is reused exactly once and no socket is opened. */
    method ListenAll(env: seq<string>, files: Files, addrs: seq<Addr>, anew: Option<Listener>)
      requires |files| >= 3 && active == []
      requires Inheritance(env, files).1 && Keys(addrs) == LeftKeys(Inheritance(env, files).0)
      modifies this
      ensures multiset(active) == Left(old(Inheritance(env, files)).0) && |active| == |addrs|
      ensures newSockets == old(newSockets) && Left(Inheritance(env, files).0) == multiset{}
    {
      hide Left;
      hide LeftKeys;
      hide Key;
      hide AfterInherit;
      var k := 0;
      assert addrs[0..] == addrs;
      while k < |addrs|
        invariant 0 <= k <= |addrs| && |active| == k && newSockets == old(newSockets)
        invariant Inheritance(env, files).1 && Keys(addrs[k..]) == LeftKeys(Inheritance(env, files).0)
        invariant multiset(active) + Left(Inheritance(env, files).0) == Left(old(Inheritance(env, files)).0)
      {
        assert addrs[k..][1..] == addrs[k + 1..];
        var l := Listen(env, files, addrs[k], anew);
        OnlyOnce(inherited, env, files);
        Cancel(Keys(addrs[k + 1..]), LeftKeys(inherited), Key(addrs[k]));
        k := k + 1;
      }
      assert Keys(addrs[k..]) == multiset{};
      SameNumberLeft(Inheritance(env, files).0);
    }

    static lemma OnlyOnce(inherited: Files, env: seq<string>, files: Files)
      ensures AfterInherit(true, inherited, env, files) == (inherited, true)
    {
    }
  }

  /** A graceful restart: the child gets the parent's listeners, in descriptor order, and after
      listening on the same addresses holds the very same sockets: none dropped, none opened. */
  method Restart(parent: Net, env: seq<string>, addrs: seq<Addr>, anew: Option<Listener>)
      returns (child: Net, childEnv: seq<string>)
    requires Keys(addrs) == KeysOf(parent.active)
    ensures fresh(child) && CountEntries(childEnv) == 1
    ensures multiset(child.active) == multiset(parent.active) && child.newSockets == []
    ensures Left(child.Inheritance(childEnv, ChildFiles(parent.active)).0) == multiset{}
  {
    hide Left;
    hide LeftKeys;
    hide Others;
    hide CountEntries;
    hide Keys;
    hide KeysOf;
    hide GetCount;
    hide Itoa;
    var n := |parent.active|;
    childEnv := ChildEnv(env, n);
    var files := ChildFiles(parent.active);
    child := new Net();
    HandedOver(parent.active, childEnv);
    hide AfterInherit;
    hide ChildFiles;
    AllLeft(parent.active);
    child.ListenAll(childEnv, files, addrs, anew);
  }

  /** A process started with these files and this count inherits exactly the listeners, in order. */
  lemma HandedOver(active: seq<Listener>, env: seq<string>)
    requires GetCount(env) == Itoa(|active|)
    ensures |ChildFiles(active)| == 3 + |active|
    ensures forall k :: 0 <= k < |active| ==> ChildFiles(active)[3 + k] == Some(active[k])
    ensures AfterInherit(false, [], env, ChildFiles(active)) == (Descriptors(active), true)
  {
    hide Itoa;
    hide Atoi;
    hide Digits;
    hide GetCount;
    hide Usable;
    var n, files := |active|, ChildFiles(active);
    AtoiOfItoa(n);
    FilesAre(active);
    hide ChildFiles;
    UsableIs(files, n, n);
  }

  lemma FilesAre(active: seq<Listener>)
    ensures var files := ChildFiles(active);
            && |files| == 3 + |active| && (forall k :: 0 <= k < |active| ==> files[3 + k] == Some(active[k]))
            && (forall i :: 3 <= i < 3 + |active| ==> IsListener(files, i))
            && [] + files[3..3 + |active|] == Descriptors(active) && (active == [] ==> Descriptors(active) == [])
  {
    var files := ChildFiles(active);
    assert forall i :: 3 <= i < 3 + |active| ==> files[i] == Descriptors(active)[i - 3];
  }

  /** Any number of restarts: the sockets the first process listened on are the sockets that every later
      one listens on, and none of them opened another. */
  method Restarts(first: Net, env: seq<string>, plans: seq<seq<Addr>>, anew: Option<Listener>)
      returns (chain: seq<Net>)
    requires forall g :: 0 <= g < |plans| ==> Keys(plans[g]) == KeysOf(first.active)
    ensures |chain| == |plans| + 1 && chain[0] == first
    ensures forall g :: 0 <= g < |chain| ==> multiset(chain[g].active) == multiset(first.active)
    ensures forall g :: 1 <= g < |chain| ==> chain[g].newSockets == []
  {
    chain := [first];
    var e := env;
    while |chain| <= |plans|
      invariant 1 <= |chain| <= |plans| + 1 && chain[0] == first && first.active == old(first.active)
      invariant forall g :: 0 <= g < |chain| ==>
                  allocated(chain[g]) && multiset(chain[g].active) == multiset(first.active)
      invariant forall g :: 1 <= g < |chain| ==> chain[g].newSockets == []
    {
      var last := chain[|chain| - 1];
      SameListenersSameKeys(first.active, last.active);
      var child;
      child, e := Restart(last, e, plans[|chain| - 1], anew);
      chain := chain + [child];
    }
  }

  /** What `ListenAll` and `Restart` ask of the addresses: they are those of the listeners, in any order, each
      up to its wildcard form. */
  lemma AskedInAnyOrder(addrs: seq<Addr>, order: seq<Listener>, ls: seq<Listener>)
    requires multiset(order) == multiset(ls) && |addrs| == |order|
    requires forall k :: 0 <= k < |addrs| ==> IsSameAddr(addrs[k], order[k].addr)
    ensures Keys(addrs) == KeysOf(ls)
  {
    hide Key;
    hide IsSameAddr;
    SameKeys(addrs, order);
    SameListenersSameKeys(order, ls);
  }

  lemma {:induction false} SameKeys(addrs: seq<Addr>, ls: seq<Listener>)
    requires |addrs| == |ls| && forall k :: 0 <= k < |addrs| ==> IsSameAddr(addrs[k], ls[k].addr)
    ensures Keys(addrs) == KeysOf(ls)
  {
    hide Key;
    hide IsSameAddr;
    if addrs != [] {
      SameKeys(addrs[1..], ls[1..]);
      SameAddrIffSameKey(addrs[0], ls[0].addr);
      MapFirst(KeyOf, ls);
    }
  }

  lemma SameListenersSameKeys(a: seq<Listener>, b: seq<Listener>)
    requires multiset(a) == multiset(b)
    ensures KeysOf(a) == KeysOf(b)
  {
    MapPermute(KeyOf, a, b);
  }
}
