/** Small wrapper datatype shared by the other modules. */
module Wrappers {
  datatype Option<+T> = None | Some(value: T)
}

/**
 Names of the worker processes. A worker is identified by the index of the
 queue it serves and its index within that queue's pool; its entry in the
 status table is keyed by the string `Queue-{queue}-Process-{process}`.
 Indices are rendered in decimal, as Python's f-strings render a
 non-negative int.
 */
module WorkerNaming {
  import opened Wrappers

  datatype WorkerId = WorkerId(queue: nat, process: nat)

  predicate IsDigit(c: char) {
    '0' <= c <= '9'
  }

  predicate AllDigits(s: string) {
    forall i :: 0 <= i < |s| ==> IsDigit(s[i])
  }

  function DigitChar(d: nat): (c: char)
    requires d < 10
    ensures IsDigit(c) && DigitValue(c) == d
  {
    (48 + d) as char
  }

  function DigitValue(c: char): (d: nat)
    requires IsDigit(c)
    ensures d < 10
  {
    c as int - 48
  }

  /** The decimal rendering of `n`, without sign or leading zeros. */
  function Decimal(n: nat): (s: string)
    ensures |s| >= 1 && AllDigits(s)
  {
    if n < 10 then [DigitChar(n)] else Decimal(n / 10) + [DigitChar(n % 10)]
  }

  /** The value of a string of decimal digits, most significant first. */
  function DigitsValue(s: string): nat
    requires AllDigits(s)
  {
    if s == [] then 0 else DigitsValue(s[..|s| - 1]) * 10 + DigitValue(s[|s| - 1])
  }

  /** Reads back a decimal number; anything that is not a non-empty run of digits is refused. */
  function ParseDecimal(s: string): (r: Option<nat>)
    ensures r.Some? <==> s != [] && AllDigits(s)
  {
    if s != [] && AllDigits(s) then Some(DigitsValue(s)) else None
  }

  lemma {:induction false} DecimalRoundTrip(n: nat)
    ensures ParseDecimal(Decimal(n)) == Some(n)
  {
    var s := Decimal(n);
    if n < 10 {
      assert s[..|s| - 1] == [];
      assert DigitsValue(s) == DigitValue(DigitChar(n));
    } else {
      DecimalRoundTrip(n / 10);
      assert s[..|s| - 1] == Decimal(n / 10);
      assert DigitsValue(s) == (n / 10) * 10 + DigitValue(DigitChar(n % 10));
    }
  }

  const QueuePrefix: string := "Queue-"
  const ProcessInfix: string := "-Process-"

  /**
   The status-table key of a worker: the queue prefix, then the queue index
   in decimal, the process infix and the process index in decimal.
   */
  function WorkerKey(id: WorkerId): (k: string)
    ensures |k| > |QueuePrefix| && k[..|QueuePrefix|] == QueuePrefix
    ensures k[|QueuePrefix|..] == Decimal(id.queue) + (ProcessInfix + Decimal(id.process))
  {
    var body := Decimal(id.queue) + (ProcessInfix + Decimal(id.process));
    assert QueuePrefix + Decimal(id.queue) + ProcessInfix + Decimal(id.process) == QueuePrefix + body;
    QueuePrefix + Decimal(id.queue) + ProcessInfix + Decimal(id.process)
  }

  /** The name of a worker whose indices are single digits. */
  lemma SingleDigitName(id: WorkerId)
    requires id.queue < 10 && id.process < 10
    ensures WorkerKey(id) == QueuePrefix + [DigitChar(id.queue)] + ProcessInfix + [DigitChar(id.process)]
  {
  }

  /** Index of the first occurrence of `c` in `s`, or |s| when there is none. */
  function IndexOf(s: string, c: char): (i: nat)
    ensures i <= |s|
    ensures forall j :: 0 <= j < i ==> s[j] != c
    ensures i < |s| ==> s[i] == c
  {
    if s == [] then 0 else if s[0] == c then 0 else 1 + IndexOf(s[1..], c)
  }

  /** Reads a worker identity back from a status-table key. */
  function ParseWorkerKey(s: string): Option<WorkerId> {
    if |s| < |QueuePrefix| || s[..|QueuePrefix|] != QueuePrefix then None
    else
      var rest := s[|QueuePrefix|..];
      var i := IndexOf(rest, '-');
      var tail := rest[i..];
      if |tail| < |ProcessInfix| || tail[..|ProcessInfix|] != ProcessInfix then None
      else
        match (ParseDecimal(rest[..i]), ParseDecimal(tail[|ProcessInfix|..]))
        case (Some(q), Some(p)) => Some(WorkerId(q, p))
        case _ => None
  }

  /** In digits followed by a dash, the first dash is the one after the digits. */
  lemma FirstDashAfterDigits(digits: string, tail: string)
    requires AllDigits(digits) && tail != [] && tail[0] == '-'
    ensures IndexOf(digits + tail, '-') == |digits|
  {
    var s := digits + tail;
    assert forall j :: 0 <= j < |digits| ==> s[j] == digits[j];
    assert s[|digits|] == '-';
  }

  lemma WorkerKeyRoundTrip(id: WorkerId)
    ensures ParseWorkerKey(WorkerKey(id)) == Some(id)
  {
    var dq, dp := Decimal(id.queue), Decimal(id.process);
    var rest := WorkerKey(id)[|QueuePrefix|..];
    FirstDashAfterDigits(dq, ProcessInfix + dp);
    assert rest[..|dq|] == dq;
    var tail := rest[|dq|..];
    assert tail == ProcessInfix + dp;
    assert tail[..|ProcessInfix|] == ProcessInfix;
    assert tail[|ProcessInfix|..] == dp;
    DecimalRoundTrip(id.queue);
    DecimalRoundTrip(id.process);
  }

  /** Distinct workers never share a status-table entry. */
  lemma WorkerKeyInjective(a: WorkerId, b: WorkerId)
    ensures WorkerKey(a) == WorkerKey(b) <==> a == b
  {
    WorkerKeyRoundTrip(a);
    WorkerKeyRoundTrip(b);
  }

  /** No two workers share a key, for every pair at once. */
  lemma WorkerKeysDistinct()
    ensures forall a, b | WorkerKey(a) == WorkerKey(b) :: a == b
  {
    forall a, b | WorkerKey(a) == WorkerKey(b) ensures a == b {
      WorkerKeyInjective(a, b);
    }
  }
}
