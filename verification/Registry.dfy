/** Registering a provider's methods in ZooKeeper, and finding them again: a node for each service and,
    below it, one for each method, which holds the provider's ip:port. Names contain no slash. */
module Registry {
  import opened Sequences
  import opened Varint

  type Name = string

  /** m_port is a uint16_t. */
  const PORTS: nat := 0x1_0000

  // ---- Numbers as text ----------------------------------------------------------------------------

  function Digit(d: nat): char
    requires d < 10
  {
    ['0', '1', '2', '3', '4', '5', '6', '7', '8', '9'][d]
  }

  predicate IsDigit(c: char) {
    '0' <= c <= '9'
  }

  function Decimal(n: nat): string {
    if n < 10 then [Digit(n)] else Decimal(n / 10) + [Digit(n % 10)]
  }

  /** %d */
  function Printed(n: int): string {
    if n < 0 then "-" + Decimal(-n) else Decimal(n)
  }

  predicate IsSpace(c: char) {
    c in [' ', '\t', '\n', 11 as char, 12 as char, '\r']
  }

  function AtoiDigits(s: string, value: nat): nat {
    if s == "" || !IsDigit(s[0]) then value
    else AtoiDigits(s[1..], 10 * value + (s[0] as int - '0' as int))
  }

  function Atoi(s: string): int {
    if s == "" then 0
    else if IsSpace(s[0]) then Atoi(s[1..])
    else if s[0] == '-' then 0 - AtoiDigits(s[1..], 0)
    else if s[0] == '+' then AtoiDigits(s[1..], 0)
    else AtoiDigits(s, 0)
  }

  lemma {:induction false} AtoiDigitsOfSnoc(s: string, c: char, value: nat)
    requires (forall i :: 0 <= i < |s| ==> IsDigit(s[i])) && IsDigit(c)
    ensures AtoiDigits(s + [c], value) == 10 * AtoiDigits(s, value) + (c as int - '0' as int)
  {
    if s == "" {
      assert s + [c] == [c];
      assert [c][1..] == "";
    } else {
      assert (s + [c])[1..] == s[1..] + [c];
      AtoiDigitsOfSnoc(s[1..], c, 10 * value + (s[0] as int - '0' as int));
    }
  }

  lemma {:induction false} AtoiDecimal(n: nat)
    ensures AtoiDigits(Decimal(n), 0) == n
    ensures Decimal(n) != "" && forall i :: 0 <= i < |Decimal(n)| ==> IsDigit(Decimal(n)[i])
  {
    if n < 10 {
      assert Decimal(n)[1..] == "";
    } else {
      AtoiDecimal(n / 10);
      AtoiDigitsOfSnoc(Decimal(n / 10), Digit(n % 10), 0);
    }
  }

  /** atoi undoes %d. */
  lemma AtoiPrinted(n: int)
    ensures Atoi(Printed(n)) == n
  {
    if n < 0 {
      AtoiDecimal(-n);
      assert Printed(n)[1..] == Decimal(-n);
    } else {
      AtoiDecimal(n);
      assert IsDigit(Decimal(n)[0]);
    }
  }

  lemma {:induction false} AtoiDigitsStops(s: string, rest: string, value: nat)
    requires forall i :: 0 <= i < |s| ==> IsDigit(s[i])
    requires rest == "" || !IsDigit(rest[0])
    ensures AtoiDigits(s + rest, value) == AtoiDigits(s, value)
  {
    if s == "" {
      assert s + rest == rest;
    } else {
      assert (s + rest)[1..] == s[1..] + rest;
      AtoiDigitsStops(s[1..], rest, 10 * value + (s[0] as int - '0' as int));
    }
  }

  lemma {:induction false} AtoiSkips(blanks: string, text: string)
    requires forall i :: 0 <= i < |blanks| ==> IsSpace(blanks[i])
    ensures Atoi(blanks + text) == Atoi(text)
  {
    if blanks == "" {
      assert blanks + text == text;
    } else {
      assert (blanks + text)[1..] == blanks[1..] + text;
      AtoiSkips(blanks[1..], text);
    }
  }

  lemma AtoiUnsigned(text: string)
    requires text != "" && IsDigit(text[0])
    ensures Atoi(text) == AtoiDigits(text, 0)
  {
  }

  lemma AtoiSigned(text: string)
    ensures Atoi("+" + text) == AtoiDigits(text, 0) && Atoi("-" + text) == 0 - AtoiDigits(text, 0)
  {
    assert ("+" + text)[1..] == text && ("-" + text)[1..] == text;
  }

  /** atoi passes over blanks, takes a sign, and stops at the first character that is no digit. */
  lemma AtoiText(blanks: string, n: nat, rest: string)
    requires forall i :: 0 <= i < |blanks| ==> IsSpace(blanks[i])
    requires rest == "" || !IsDigit(rest[0])
    ensures Atoi(blanks + (Decimal(n) + rest)) == n
    ensures Atoi(blanks + ("+" + (Decimal(n) + rest))) == n
    ensures Atoi(blanks + ("-" + (Decimal(n) + rest))) == 0 - n
  {
    hide Decimal, AtoiDigits, Atoi;
    var text := Decimal(n) + rest;
    AtoiDecimal(n);
    AtoiDigitsStops(Decimal(n), rest, 0);
    AtoiSkips(blanks, text);
    AtoiSkips(blanks, "+" + text);
    AtoiSkips(blanks, "-" + text);
    AtoiUnsigned(text);
    AtoiSigned(text);
  }

  lemma AtoiOfNothing(blank: string)
    requires |blank| == 1 && blank[0] == ' '
    ensures Atoi("") == 0 && Atoi(blank) == 0
  {
    assert blank[1..] == "";
  }

  // ---- The tree -----------------------------------------------------------------------------

  datatype Node = Node(data: string, ephemeral: bool)

  /** Every node but the root, by its path. */
  type Tree = map<string, Node>

  function LastSlash(path: string, n: nat): (i: int)
    requires n <= |path|
    ensures -1 <= i < n && (i >= 0 ==> path[i] == '/')
    ensures forall k :: i < k < n ==> path[k] != '/'
  {
    if n == 0 then -1 else if path[n - 1] == '/' then n - 1 else LastSlash(path, n - 1)
  }

  /** The root is the empty path. */
  function Parent(path: string): string {
    var i := LastSlash(path, |path|);
    if i == -1 then "" else path[..i]
  }

  /** A node may be created where its parent is, unless the parent is ephemeral. */
  predicate MayCreate(t: Tree, path: string) {
    Parent(path) == "" || (Parent(path) in t && !t[Parent(path)].ephemeral)
  }

  predicate ParentClosed(t: Tree) {
    forall path :: path in t ==> MayCreate(t, path)
  }

  /** None: the create fails, and with it the process. A node that exists stays as it is. */
  function CreateIn(t: Tree, path: string, node: Node): Option<Tree> {
    if path in t then Some(t) else if MayCreate(t, path) then Some(t[path := node]) else None
  }

  predicate SlashFree(name: Name) {
    name != "" && '/' !in name
  }

  function ServicePath(service: Name): string {
    "/" + service
  }

  function MethodPath(service: Name, procedure: Name): string {
    ServicePath(service) + "/" + procedure
  }

  lemma ServicePathParent(service: Name)
    requires SlashFree(service)
    ensures Parent(ServicePath(service)) == ""
  {
    var path := ServicePath(service);
    assert forall k :: 0 < k < |path| ==> path[k] == service[k - 1] && service[k - 1] in service;
    assert path[0] == '/';
    assert LastSlash(path, |path|) == 0;
  }

  lemma MethodPathParent(service: Name, procedure: Name)
    requires SlashFree(procedure)
    ensures Parent(MethodPath(service, procedure)) == ServicePath(service)
  {
    var path, n := MethodPath(service, procedure), |service| + 1;
    assert path[n] == '/' && path[..n] == ServicePath(service);
    assert forall k :: n < k < |path| ==> path[k] == procedure[k - n - 1] && procedure[k - n - 1] in procedure;
    assert LastSlash(path, |path|) == n;
  }

  /** Different methods have different paths, and no method has the path of a service. */
  lemma PathsDistinct(s1: Name, m1: Name, s2: Name, m2: Name)
    requires SlashFree(s1) && SlashFree(m1) && SlashFree(s2) && SlashFree(m2)
    ensures MethodPath(s1, m1) == MethodPath(s2, m2) ==> s1 == s2 && m1 == m2
    ensures MethodPath(s1, m1) != ServicePath(s2)
  {
    MethodPathParent(s1, m1);
    MethodPathParent(s2, m2);
    ServicePathParent(s2);
    if MethodPath(s1, m1) == MethodPath(s2, m2) {
      assert ServicePath(s1)[1..] == s1 && ServicePath(s2)[1..] == s2;
      assert MethodPath(s1, m1)[|s1| + 2..] == m1 && MethodPath(s2, m2)[|s1| + 2..] == m2;
    }
  }

  // ---- Registration ---------------------------------------------------------------------------

  datatype Service = Service(name: Name, methods: seq<Name>)

  /** The methods of one service, whose own node is there. */
  function RegisterMethods(t: Tree, service: Name, methods: seq<Name>, address: string): Option<Tree>
    decreases |methods|
  {
    if methods == [] then Some(t)
    else
      match CreateIn(t, MethodPath(service, methods[0]), Node(address, true))
      case None => None
      case Some(next) => RegisterMethods(next, service, methods[1..], address)
  }

  function RegisterService(t: Tree, s: Service, address: string): Option<Tree> {
    match CreateIn(t, ServicePath(s.name), Node("", false))
    case None => None
    case Some(next) => RegisterMethods(next, s.name, s.methods, address)
  }

  function Register(t: Tree, services: seq<Service>, address: string): Option<Tree>
    decreases |services|
  {
    if services == [] then Some(t)
    else
      match RegisterService(t, services[0], address)
      case None => None
      case Some(next) => Register(next, services[1..], address)
  }

  predicate Valid(s: Service) {
    SlashFree(s.name) && forall m :: m in s.methods ==> SlashFree(m)
  }

  /** No create below an ephemeral node: what ZooKeeper asks of the tree that is there. */
  predicate Room(t: Tree, service: Name, methods: seq<Name>) {
    ServicePath(service) in t && t[ServicePath(service)].ephemeral ==>
      forall m :: m in methods ==> MethodPath(service, m) in t
  }

  /** What registration does to the tree: it keeps every node as it is, and adds service nodes below
      the root and method nodes elsewhere, each where there was a node to hold it. */
  predicate Extends(t: Tree, u: Tree, address: string) {
    && (forall p :: p in t ==> p in u && u[p] == t[p])
    && (forall p :: p in u && p !in t ==>
          MayCreate(u, p) && u[p] == if Parent(p) == "" then Node("", false) else Node(address, true))
  }

  lemma ExtendsClosed(t: Tree, u: Tree, address: string)
    requires ParentClosed(t) && Extends(t, u, address)
    ensures ParentClosed(u)
  {
  }

  lemma ExtendsTwice(t: Tree, u: Tree, v: Tree, address: string)
    requires Extends(t, u, address) && Extends(u, v, address)
    ensures Extends(t, v, address)
  {
    forall p | p in v && p !in t
      ensures MayCreate(v, p) && v[p] == if Parent(p) == "" then Node("", false) else Node(address, true)
    {
      if p in u { assert MayCreate(u, p); }
    }
  }

  lemma CreateExtends(t: Tree, path: string, address: string)
    ensures var node := if Parent(path) == "" then Node("", false) else Node(address, true);
            CreateIn(t, path, node).Some? ==> Extends(t, CreateIn(t, path, node).value, address)
  {
  }

  lemma {:induction false} MethodsExtend(t: Tree, service: Name, methods: seq<Name>, address: string)
    requires forall m :: m in methods ==> SlashFree(m)
    ensures RegisterMethods(t, service, methods, address).Some? ==>
              var u := RegisterMethods(t, service, methods, address).value;
              Extends(t, u, address) && forall m :: m in methods ==> MethodPath(service, m) in u
    decreases |methods|
  {
    if methods != [] {
      assert methods == [methods[0]] + methods[1..];
      var path := MethodPath(service, methods[0]);
      MethodPathParent(service, methods[0]);
      CreateExtends(t, path, address);
      var next := CreateIn(t, path, Node(address, true));
      if next.Some? {
        MethodsExtend(next.value, service, methods[1..], address);
        var u := RegisterMethods(next.value, service, methods[1..], address);
        if u.Some? { ExtendsTwice(t, next.value, u.value, address); }
      }
    }
  }

  lemma ServiceExtends(t: Tree, s: Service, address: string)
    requires Valid(s)
    ensures RegisterService(t, s, address).Some? ==>
              var u := RegisterService(t, s, address).value;
              Extends(t, u, address) && forall m :: m in s.methods ==> MethodPath(s.name, m) in u
  {
    ServicePathParent(s.name);
    CreateExtends(t, ServicePath(s.name), address);
    var next := CreateIn(t, ServicePath(s.name), Node("", false)).value;
    MethodsExtend(next, s.name, s.methods, address);
    var u := RegisterMethods(next, s.name, s.methods, address);
    if u.Some? { ExtendsTwice(t, next, u.value, address); }
  }

  /** After registration every method of every service has a node. */
  lemma {:induction false} RegisterExtends(t: Tree, services: seq<Service>, address: string)
    requires forall s :: s in services ==> Valid(s)
    ensures Register(t, services, address).Some? ==>
              var u := Register(t, services, address).value;
              && Extends(t, u, address)
              && forall s, m :: s in services && m in s.methods ==> MethodPath(s.name, m) in u
    decreases |services|
  {
    if services != [] {
      assert services == [services[0]] + services[1..];
      ServiceExtends(t, services[0], address);
      var next := RegisterService(t, services[0], address);
      if next.Some? {
        RegisterExtends(next.value, services[1..], address);
        var u := Register(next.value, services[1..], address);
        if u.Some? { ExtendsTwice(t, next.value, u.value, address); }
      }
    }
  }

  /** Registration keeps the tree parent-closed. */
  lemma RegisterKeepsClosed(t: Tree, services: seq<Service>, address: string)
    requires ParentClosed(t) && (forall s :: s in services ==> Valid(s)) && Register(t, services, address).Some?
    ensures ParentClosed(Register(t, services, address).value)
  {
    RegisterExtends(t, services, address);
    ExtendsClosed(t, Register(t, services, address).value, address);
  }

  // ---- When it succeeds -----------------------------------------------------------------------

  /** The methods of one service are all created exactly when there is room below its node. */
  lemma {:induction false} MethodsRegister(t: Tree, service: Name, methods: seq<Name>, address: string)
    requires ServicePath(service) in t && SlashFree(service) && forall m :: m in methods ==> SlashFree(m)
    ensures RegisterMethods(t, service, methods, address).Some? <==> Room(t, service, methods)
    decreases |methods|
  {
    if methods != [] {
      var path := MethodPath(service, methods[0]);
      MethodPathParent(service, methods[0]);
      PathsDistinct(service, methods[0], service, methods[0]);
      assert methods == [methods[0]] + methods[1..];
      var next := CreateIn(t, path, Node(address, true));
      if next.Some? {
        MethodsRegister(next.value, service, methods[1..], address);
        if t[ServicePath(service)].ephemeral {
          assert next.value == t;
        }
      } else {
        assert methods[0] in methods;
      }
    }
  }

  lemma ServiceRegisters(t: Tree, s: Service, address: string)
    requires Valid(s)
    ensures RegisterService(t, s, address).Some? <==> Room(t, s.name, s.methods)
  {
    ServicePathParent(s.name);
    var next := CreateIn(t, ServicePath(s.name), Node("", false)).value;
    MethodsRegister(next, s.name, s.methods, address);
  }

  lemma RoomKept(t: Tree, u: Tree, s: Service, address: string)
    requires Extends(t, u, address) && Valid(s)
    ensures Room(u, s.name, s.methods) <==> Room(t, s.name, s.methods)
  {
    ServicePathParent(s.name);
    var path := ServicePath(s.name);
    if path in u && u[path].ephemeral {
      assert path in t;
      forall m | m in s.methods ensures MethodPath(s.name, m) in u <==> MethodPath(s.name, m) in t {
        MethodPathParent(s.name, m);
        assert MethodPath(s.name, m) in u ==> MethodPath(s.name, m) in t || MayCreate(u, MethodPath(s.name, m));
      }
    }
  }

  /** Registration gets through, on any tree and for any services, exactly when no method node is
      missing below an ephemeral service node: no create ever misses its parent. */
  lemma {:induction false} RegistersExactly(t: Tree, services: seq<Service>, address: string)
    requires forall s :: s in services ==> Valid(s)
    ensures Register(t, services, address).Some? <==> forall s :: s in services ==> Room(t, s.name, s.methods)
    decreases |services|
  {
    if services != [] {
      assert services == [services[0]] + services[1..];
      ServiceRegisters(t, services[0], address);
      ServiceExtends(t, services[0], address);
      var next := RegisterService(t, services[0], address);
      if next.Some? {
        RegistersExactly(next.value, services[1..], address);
        forall s | s in services[1..] ensures Room(next.value, s.name, s.methods) <==> Room(t, s.name, s.methods) {
          RoomKept(t, next.value, s, address);
        }
      }
    }
  }

  // ---- Lookup -------------------------------------------------------------------------------

  /** sprintf("%s:%d") */
  function Address(ip: string, port: int): string {
    ip + ":" + Printed(port)
  }

  const DATA_BUFFER: nat := 64

  /** zoo_get into a buffer of 64 bytes, taken to be terminated after what it writes. */
  function GetData(t: Tree, path: string): string {
    if path !in t then ""
    else if |t[path].data| <= DATA_BUFFER then t[path].data else t[path].data[..DATA_BUFFER]
  }

  function FindColon(s: string, from: nat): (i: int)
    requires from <= |s|
    ensures i == -1 || (from <= i < |s| && s[i] == ':')
    ensures forall k :: from <= k < (if i == -1 then |s| else i) ==> s[k] != ':'
    decreases |s| - from
  {
    if from == |s| then -1 else if s[from] == ':' then from else FindColon(s, from + 1)
  }

  /** Thrown: substr is asked to start past the end of its string. */
  datatype Location = At(ip: string, port: int) | Thrown

  /** The host data of a method and the channel's index of the colon, which keeps its last value when
      the node has no data. */
  function QueryServiceHost(t: Tree, service: Name, procedure: Name, idx: int): (string, int) {
    var hostData := GetData(t, MethodPath(service, procedure));
    if hostData == "" then (" ", idx)
    else if FindColon(hostData, 0) == -1 then (" ", -1)
    else (hostData, FindColon(hostData, 0))
  }

  /** The address split; an index of -1 is the largest size_t, so that the first substr takes all. The
      number is cut to the 16 bits of the channel's port. */
  function SplitAddress(hostData: string, idx: int): Location
    requires idx >= -1
  {
    if idx + 1 > |hostData| then Thrown
    else At(if idx == -1 then hostData else hostData[..idx], Atoi(hostData[idx + 1..]) % PORTS)
  }

  function Locate(t: Tree, service: Name, procedure: Name, idx: int): Location
    requires idx >= -1
  {
    var host := QueryServiceHost(t, service, procedure, idx);
    SplitAddress(host.0, host.1)
  }

  lemma FirstColon(ip: string, rest: string)
    ensures 0 <= FindColon(ip + ":" + rest, 0) <= |ip|
    ensures FindColon(ip + ":" + rest, 0) == |ip| <==> ':' !in ip
  {
    var data := ip + ":" + rest;
    assert data[|ip|] == ':';
    assert forall k :: 0 <= k < |ip| ==> data[k] == ip[k];
    var i := FindColon(data, 0);
    if i < |ip| { assert ip[i] == ':'; }
    if ':' in ip {
      var k :| 0 <= k < |ip| && ip[k] == ':';
      assert data[k] == ':';
    }
  }

  /** An ip without a colon comes back whole, and the port modulo 2^16. */
  lemma AddressSplits(ip: string, port: int32)
    ensures var data := Address(ip, port);
            && FindColon(data, 0) != -1
            && (':' !in ip ==> SplitAddress(data, FindColon(data, 0)) == At(ip, port % PORTS))
            && (SplitAddress(data, FindColon(data, 0)) == At(ip, port) <==> ':' !in ip && 0 <= port < PORTS)
  {
    hide FindColon, Atoi, Printed;
    var data := Address(ip, port);
    FirstColon(ip, Printed(port));
    assert data[..|ip|] == ip && data[|ip| + 1..] == Printed(port);
    AtoiPrinted(port);
  }

  /** Every registered method whose node was not there before is found at the provider's ip and port,
      whatever the channel looked up before: exactly when the ip has no colon in it and the port, an
      int in the provider's configuration, fits the 16 bits that the client keeps of it. */
  lemma RegisteredIsFound(t: Tree, services: seq<Service>, ip: string, port: int32, s: Service, m: Name, idx: int)
    requires (forall s :: s in services ==> Valid(s)) && s in services && m in s.methods
    requires Register(t, services, Address(ip, port)).Some?
    requires MethodPath(s.name, m) !in t && |Address(ip, port)| < DATA_BUFFER && idx >= -1
    ensures var found := Locate(Register(t, services, Address(ip, port)).value, s.name, m, idx);
            && (found == At(ip, port) <==> ':' !in ip && 0 <= port < PORTS)
            && (':' !in ip ==> found == At(ip, port % PORTS))
  {
    RegisterExtends(t, services, Address(ip, port));
    MethodPathParent(s.name, m);
    AddressSplits(ip, port);
  }

  lemma FiveDigits()
    ensures |Printed(70000)| == 5
  {
    assert |Decimal(70)| == 2;
    assert |Decimal(7000)| == 4;
  }

  /** A provider configured with port 70000 is looked up at port 4464. */
  lemma LargePortWraps(s: Service, m: Name)
    requires Valid(s) && m in s.methods
    ensures Register(map[], [s], Address("10.0.0.1", 70000)).Some?
    ensures Locate(Register(map[], [s], Address("10.0.0.1", 70000)).value, s.name, m, 0) == At("10.0.0.1", 4464)
  {
    hide Printed, Locate, Register;
    RegistersExactly(map[], [s], Address("10.0.0.1", 70000));
    FiveDigits();
    RegisteredIsFound(map[], [s], "10.0.0.1", 70000, s, m, 0);
  }

  /** A node that was there before keeps its address: the provider's own is not written. */
  lemma StaleAddressStays(t: Tree, services: seq<Service>, address: string, service: Name, procedure: Name, idx: int)
    requires (forall s :: s in services ==> Valid(s)) && Register(t, services, address).Some?
    requires MethodPath(service, procedure) in t && idx >= -1
    ensures Locate(Register(t, services, address).value, service, procedure, idx) == Locate(t, service, procedure, idx)
  {
    RegisterExtends(t, services, address);
  }

  lemma BlankSplits(blank: string, idx: int)
    requires |blank| == 1 && blank[0] == ' ' && idx >= -1
    ensures idx >= 1 ==> SplitAddress(blank, idx) == Thrown
    ensures idx == 0 ==> SplitAddress(blank, idx) == At("", 0)
    ensures idx == -1 ==> SplitAddress(blank, idx) == At(blank, 0)
  {
    hide Atoi;
    AtoiOfNothing(blank);
    if idx == 0 {
      assert blank[1..] == "" && blank[..0] == "";
    } else if idx == -1 {
      assert blank[0..] == blank;
    }
  }

  /** Looking up a method that has no node, or no data, throws exactly when the channel remembers a colon
      past the start of an earlier address; otherwise it gives port 0. */
  lemma MissingThrows(t: Tree, service: Name, procedure: Name, idx: int)
    requires MethodPath(service, procedure) in t ==> t[MethodPath(service, procedure)].data == ""
    requires idx >= -1
    ensures Locate(t, service, procedure, idx) == Thrown <==> idx >= 1
    ensures idx == 0 ==> Locate(t, service, procedure, idx) == At("", 0)
    ensures idx == -1 ==> Locate(t, service, procedure, idx) == At(" ", 0)
  {
    hide SplitAddress, FindColon;
    BlankSplits(" ", idx);
  }

  /** An address without a colon counts for one blank and port 0. */
  lemma AddressWithoutColon(t: Tree, service: Name, procedure: Name, idx: int)
    requires idx >= -1 && MethodPath(service, procedure) in t
    requires var data := t[MethodPath(service, procedure)].data; 0 < |data| < DATA_BUFFER && ':' !in data
    ensures Locate(t, service, procedure, idx) == At(" ", 0)
  {
    hide SplitAddress;
    BlankSplits(" ", -1);
    var data := t[MethodPath(service, procedure)].data;
    assert forall k :: 0 <= k < |data| ==> data[k] in data && data[k] != ':';
  }

  // ---- The objects ----------------------------------------------------------------------------

  class ZkClient {
    var nodes: Tree

    constructor (nodes: Tree)
      ensures this.nodes == nodes
    {
      this.nodes := nodes;
    }

    /** False when the create fails, which ends the process. */
    method Create(path: string, data: string, ephemeral: bool) returns (ok: bool)
      modifies this
      ensures ok == CreateIn(old(nodes), path, Node(data, ephemeral)).Some?
      ensures nodes == if ok then CreateIn(old(nodes), path, Node(data, ephemeral)).value else old(nodes)
      ensures ParentClosed(old(nodes)) ==> ParentClosed(nodes)
    {
      ok := true;
      if path !in nodes {
        if !MayCreate(nodes, path) { return false; }
        nodes := nodes[path := Node(data, ephemeral)];
      }
    }

    /** The registration loop of the provider's Run. */
    method RegisterAll(services: seq<Service>, ip: string, port: int32) returns (ok: bool)
      modifies this
      ensures ok == Register(old(nodes), services, Address(ip, port)).Some?
      ensures ok ==> nodes == Register(old(nodes), services, Address(ip, port)).value
      ensures ParentClosed(old(nodes)) ==> ParentClosed(nodes)
    {
      var address := Address(ip, port);
      ghost var all := Register(nodes, services, address);
      var i := 0;
      while i < |services|
        invariant 0 <= i <= |services| && Register(nodes, services[i..], address) == all
        invariant ParentClosed(old(nodes)) ==> ParentClosed(nodes)
      {
        var s := services[i];
        assert services[i..][0] == s && services[i..][1..] == services[i + 1..];
        ok := Create(ServicePath(s.name), "", false);
        if !ok { return; }
        ok := RegisterEach(s.name, s.methods, address);
        if !ok { return; }
        i := i + 1;
      }
      ok := true;
    }

    method RegisterEach(service: Name, methods: seq<Name>, address: string) returns (ok: bool)
      modifies this
      ensures ok == RegisterMethods(old(nodes), service, methods, address).Some?
      ensures ok ==> nodes == RegisterMethods(old(nodes), service, methods, address).value
      ensures ParentClosed(old(nodes)) ==> ParentClosed(nodes)
    {
      ghost var all := RegisterMethods(nodes, service, methods, address);
      var j := 0;
      while j < |methods|
        invariant 0 <= j <= |methods| && RegisterMethods(nodes, service, methods[j..], address) == all
        invariant ParentClosed(old(nodes)) ==> ParentClosed(nodes)
      {
        assert methods[j..][0] == methods[j] && methods[j..][1..] == methods[j + 1..];
        ok := Create(MethodPath(service, methods[j]), address, true);
        if !ok { return; }
        j := j + 1;
      }
      ok := true;
    }
  }

  class ChannelAddress {
    var idx: int
    var ip: string
    var port: int

    constructor ()
      ensures idx == 0
    {
      idx, ip, port := 0, "", 0;
    }

    /** The lookup at the start of a call, which leaves the address and the index in the channel. */
    method Find(zk: ZkClient, service: Name, procedure: Name) returns (thrown: bool)
      requires idx >= -1
      modifies this
      ensures idx == QueryServiceHost(zk.nodes, service, procedure, old(idx)).1 >= -1
      ensures Locate(zk.nodes, service, procedure, old(idx)) == if thrown then Thrown else At(ip, port)
      ensures !thrown ==> 0 <= port < PORTS
    {
      var hostData := GetData(zk.nodes, MethodPath(service, procedure));
      if hostData == "" {
        hostData := " ";
      } else {
        idx := FindColon(hostData, 0);
        if idx == -1 { hostData := " "; }
      }
      ip := if idx == -1 || idx > |hostData| then hostData else hostData[..idx];
      if idx + 1 > |hostData| { return true; }
      port := Atoi(hostData[idx + 1..]) % PORTS;
      thrown := false;
    }
  }
}
