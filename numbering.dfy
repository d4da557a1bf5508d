/** Decimal rendering of sequence numbers and the codes built from them:
 *  `f"{n:06d}"` references (JE-, SR-, EX-, ADV-) and the per-student,
 *  per-course and per-employee account codes (accounts/models.py). */
module Numbering {
  import opened Common

  function DigitChar(d: nat): (c: char)
    requires d < 10
    ensures IsDigit(c)
  {
    ('0' as int + d) as char
  }

  function DigitValue(c: char): (d: nat)
    requires IsDigit(c)
    ensures d < 10 && DigitChar(d) == c
  {
    c as int - '0' as int
  }

  /** `str(n)` for a non-negative integer. */
  function Digits(n: nat): (s: string)
    ensures |s| >= 1 && AllDigits(s)
    decreases n
  {
    if n < 10 then [DigitChar(n)] else Digits(n / 10) + [DigitChar(n % 10)]
  }

  /** `int(s)` for a non-empty string of ASCII digits (0 for the empty string). */
  function ValueOf(s: string): nat
    requires AllDigits(s)
  {
    if s == [] then 0 else ValueOf(s[..|s| - 1]) * 10 + DigitValue(s[|s| - 1])
  }

  function Zeros(k: nat): (s: string)
    ensures |s| == k && AllDigits(s)
  {
    if k == 0 then [] else Zeros(k - 1) + ['0']
  }

  /** `f"{n:0{width}d}"`: at least `width` digits, padded with leading zeros. */
  function ZeroPad(n: nat, width: nat): (s: string)
    ensures AllDigits(s) && |s| >= 1 && |s| >= width
  {
    var d := Digits(n);
    (if |d| < width then Zeros(width - |d|) else []) + d
  }

  lemma {:induction false} ValueOfDigits(n: nat)
    ensures ValueOf(Digits(n)) == n
    decreases n
  {
    if n >= 10 {
      ValueOfDigits(n / 10);
      var s := Digits(n / 10) + [DigitChar(n % 10)];
      assert s[..|s| - 1] == Digits(n / 10);
    }
  }

  /** Leading zeros do not change the value. */
  lemma {:induction false} ValueOfZeros(k: nat)
    ensures ValueOf(Zeros(k)) == 0
  {
    if k > 0 {
      ValueOfZeros(k - 1);
      assert Zeros(k)[..k - 1] == Zeros(k - 1);
    }
  }

  lemma {:induction false} ValueOfZerosPrefix(k: nat, s: string)
    requires AllDigits(s)
    ensures ValueOf(Zeros(k) + s) == ValueOf(s)
    decreases |s|
  {
    if s == [] {
      assert Zeros(k) + s == Zeros(k);
      ValueOfZeros(k);
    } else {
      var t := Zeros(k) + s;
      assert t[..|t| - 1] == Zeros(k) + s[..|s| - 1];
      ValueOfZerosPrefix(k, s[..|s| - 1]);
    }
  }

  /** Reading a padded number back gives the number: the padding is lossless. */
  lemma ZeroPadRoundTrip(n: nat, width: nat)
    ensures ValueOf(ZeroPad(n, width)) == n
  {
    var d := Digits(n);
    ValueOfDigits(n);
    if |d| < width {
      ValueOfZerosPrefix(width - |d|, d);
    } else {
      assert ZeroPad(n, width) == d;
    }
  }

  /** Different numbers never share a padded rendering. */
  lemma ZeroPadInjective(n: nat, m: nat, width: nat)
    requires n != m
    ensures ZeroPad(n, width) != ZeroPad(m, width)
  {
    ZeroPadRoundTrip(n, width);
    ZeroPadRoundTrip(m, width);
  }

  /** The six-digit references assigned on first save, e.g. "JE-000042". */
  function Reference(prefix: string, n: nat): (r: string)
    ensures |r| >= |prefix| + 6 && r[..|prefix|] == prefix && AllDigits(r[|prefix|..])
  {
    prefix + ZeroPad(n, 6)
  }

  lemma ReferenceRoundTrip(prefix: string, n: nat)
    ensures ValueOf(Reference(prefix, n)[|prefix|..]) == n
  {
    assert Reference(prefix, n)[|prefix|..] == ZeroPad(n, 6);
    ZeroPadRoundTrip(n, 6);
  }

  /** Distinct sequence values give distinct references under one prefix. */
  lemma ReferencesDistinct(prefix: string, n: nat, m: nat)
    requires n != m
    ensures Reference(prefix, n) != Reference(prefix, m)
  {
    ReferenceRoundTrip(prefix, n);
    ReferenceRoundTrip(prefix, m);
  }

  const JournalPrefix: string := "JE-"
  const ReceiptPrefix: string := "SR-"
  const ExpensePrefix: string := "EX-"
  const AdvancePrefix: string := "ADV-"

  /** A code `parent + "-" + padded number`, as used for per-entity sub-accounts. */
  function SubCode(parent: string, n: nat, width: nat): (c: string)
    ensures |c| > |parent| && c[..|parent|] == parent && c[|parent|] == '-'
    ensures AllDigits(c[|parent| + 1..]) && ValueOf(c[|parent| + 1..]) == n
  {
    ZeroPadRoundTrip(n, width);
    assert (parent + "-" + ZeroPad(n, width))[|parent| + 1..] == ZeroPad(n, width);
    parent + "-" + ZeroPad(n, width)
  }

  /** `1251-{student.id:03d}`: the receivable sub-account of one student. */
  function StudentArCode(studentId: nat): string { SubCode("1251", studentId, 3) }

  /** `2101-{course.id:03d}`: the deferred-revenue sub-account of one course. */
  function CourseRevenueCode(courseId: nat): string { SubCode("2101", courseId, 3) }

  /** `5100-{employee.pk:04d}` */
  function EmployeeSalaryCode(pk: nat): string { SubCode("5100", pk, 4) }

  /** `5110-{teacher.pk:04d}` */
  function TeacherSalaryCode(pk: nat): string { SubCode("5110", pk, 4) }

  /** Sub-accounts of different parents of the same length never collide. */
  lemma SubCodeParentsDistinct(p: string, q: string, n: nat, m: nat, w: nat, v: nat)
    requires |p| == |q| && p != q
    ensures SubCode(p, n, w) != SubCode(q, m, v)
  {
    assert SubCode(p, n, w)[..|p|] == p;
    assert SubCode(q, m, v)[..|q|] == q;
  }

  /** A per-entity sub-account code is never its parent's code. */
  lemma SubCodeNotParent(n: nat)
    ensures StudentArCode(n) != "1251" && CourseRevenueCode(n) != "2101"
    ensures EmployeeSalaryCode(n) != "5100" && TeacherSalaryCode(n) != "5110"
  {
  }
}
