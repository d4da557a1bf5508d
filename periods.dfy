/** Accounting periods (accounts/models.py `AccountingPeriod`; accounts/views.py
 *  `AccountingPeriodUpdateView`, `ClosePeriodView`): a period can be edited until it is
 *  closed, and closing happens once. */
module Periods {
  import opened Common
  import opened AccountForms

  datatype PeriodError = InvalidDates | Closed | AlreadyClosed

  class AccountingPeriod {
    var name: string
    var startDate: int
    var endDate: int
    var isClosed: bool
    var closedAt: Option<Time>
    var closedBy: Option<User>

    /** A period created through the form: open, with the start before the end. */
    constructor (name: string, startDate: int, endDate: int)
      requires startDate < endDate
      ensures this.name == name && this.startDate == startDate && this.endDate == endDate
      ensures !isClosed && closedAt.None? && closedBy.None?
      ensures Valid()
    {
      this.name := name;
      this.startDate := startDate;
      this.endDate := endDate;
      isClosed := false;
      closedAt := None;
      closedBy := None;
    }

    /** A closed period records when and by whom; an open one records neither. In the source
     *  `closed_by` is cleared when that user is deleted; users are never deleted here. */
    ghost predicate Valid()
      reads this
    {
      isClosed <==> closedAt.Some? && closedBy.Some?
    }

    /** `ClosePeriodView.post`: an already closed period is refused and left as it is;
     *  otherwise it becomes closed, stamped with the time and the user. */
    method Close(user: User, now: Time) returns (r: Result<(), PeriodError>)
      requires Valid()
      modifies this
      ensures Valid() && isClosed
      ensures old(isClosed) ==> r == Err(AlreadyClosed) && closedAt == old(closedAt) && closedBy == old(closedBy)
      ensures !old(isClosed) ==> r == Ok(()) && closedAt == Some(now) && closedBy == Some(user)
      ensures name == old(name) && startDate == old(startDate) && endDate == old(endDate)
    {
      if isClosed {
        return Err(AlreadyClosed);
      }
      isClosed := true;
      closedAt := Some(now);
      closedBy := Some(user);
      r := Ok(());
    }

    /** `AccountingPeriodUpdateView`: the form's date check comes first, then a closed period
     *  is refused; only an open period with valid dates takes the new values. */
    method Update(newName: string, newStart: int, newEnd: int) returns (r: Result<(), PeriodError>)
      requires Valid()
      modifies this
      ensures Valid()
      ensures PeriodClean(Some(newStart), Some(newEnd)).Err? ==> r == Err(InvalidDates)
      ensures PeriodClean(Some(newStart), Some(newEnd)).Ok? && old(isClosed) ==> r == Err(Closed)
      ensures r.Err? ==> name == old(name) && startDate == old(startDate) && endDate == old(endDate)
      ensures r.Ok? <==> !old(isClosed) && newStart < newEnd
      ensures r.Ok? ==> name == newName && startDate == newStart && endDate == newEnd
      ensures isClosed == old(isClosed) && closedAt == old(closedAt) && closedBy == old(closedBy)
    {
      if PeriodClean(Some(newStart), Some(newEnd)).Err? {
        return Err(InvalidDates);
      }
      if isClosed {
        return Err(Closed);
      }
      name, startDate, endDate := newName, newStart, newEnd;
      r := Ok(());
    }
  }

  /** Closing twice: the second close is refused and the stamps of the first remain. */
  method CloseTwice(p: AccountingPeriod, u1: User, t1: Time, u2: User, t2: Time) returns (second: Result<(), PeriodError>)
    requires p.Valid() && !p.isClosed
    modifies p
    ensures second == Err(AlreadyClosed) && p.isClosed && p.closedAt == Some(t1) && p.closedBy == Some(u1)
  {
    var first := p.Close(u1, t1);
    second := p.Close(u2, t2);
  }
}
