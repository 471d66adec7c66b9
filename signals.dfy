/** Seat generation when a hall is saved for the first time. */
module Signals {
  import opened CinemaModels

  /** Seats 1..count of one row, in ascending seat order. */
  function RowSeats(hall: HallId, row: int, count: int): seq<Seat>
  {
    if count <= 0 then [] else RowSeats(hall, row, count - 1) + [Seat(row, count, hall)]
  }

  /** The whole grid of rows 1..rows, row by row. */
  function SeatGrid(hall: HallId, rows: int, seatsPerRow: int): seq<Seat>
  {
    if rows <= 0 then [] else SeatGrid(hall, rows - 1, seatsPerRow) + RowSeats(hall, rows, seatsPerRow)
  }

  /** `a` comes before `b` in row-major order. */
  predicate Before(a: Seat, b: Seat)
  {
    a.rowNumber < b.rowNumber || (a.rowNumber == b.rowNumber && a.seatNumber < b.seatNumber)
  }

  /** The seats written by the post-save handler of a hall: the full grid
      when the hall has just been created, nothing on a later save. */
  method CreateSeatsForHall(hall: MovieHall, created: bool) returns (seats: seq<Seat>)
    ensures seats == if created then SeatGrid(hall.id, hall.rows, hall.seatsPerRow) else []
    ensures forall s | s in seats :: s.hall == hall.id
    ensures created && hall.rows > 0 && hall.seatsPerRow > 0 ==> |seats| == hall.rows * hall.seatsPerRow
  {
    seats := [];
    if created {
      var row := 1;
      while row < hall.rows + 1
        invariant 1 <= row <= (if hall.rows < 0 then 0 else hall.rows) + 1
        invariant seats == SeatGrid(hall.id, row - 1, hall.seatsPerRow)
      {
        var seat := 1;
        while seat < hall.seatsPerRow + 1
          invariant 1 <= seat <= (if hall.seatsPerRow < 0 then 0 else hall.seatsPerRow) + 1
          invariant seats == SeatGrid(hall.id, row - 1, hall.seatsPerRow) + RowSeats(hall.id, row, seat - 1)
        {
          seats := seats + [Seat(row, seat, hall.id)];
          seat := seat + 1;
        }
        row := row + 1;
      }
      GridSize(hall.id, hall.rows, hall.seatsPerRow);
      forall s | s in seats ensures s.hall == hall.id {
        GridMembership(hall.id, hall.rows, hall.seatsPerRow, s);
      }
    }
  }

  lemma {:induction false} RowSize(hall: HallId, row: int, count: int)
    ensures |RowSeats(hall, row, count)| == if count > 0 then count else 0
  {
    if count > 0 {
      RowSize(hall, row, count - 1);
    }
  }

  /** For positive dimensions the grid has rows * seatsPerRow seats; otherwise it is empty. */
  lemma {:induction false} GridSize(hall: HallId, rows: int, seatsPerRow: int)
    ensures |SeatGrid(hall, rows, seatsPerRow)| == if rows > 0 && seatsPerRow > 0 then rows * seatsPerRow else 0
  {
    if rows > 0 {
      GridSize(hall, rows - 1, seatsPerRow);
      RowSize(hall, rows, seatsPerRow);
      if seatsPerRow > 0 {
        assert (rows - 1) * seatsPerRow + seatsPerRow == rows * seatsPerRow;
      }
    }
  }

  lemma {:induction false} RowMembership(hall: HallId, row: int, count: int, s: Seat)
    ensures s in RowSeats(hall, row, count) <==> s.hall == hall && s.rowNumber == row && 1 <= s.seatNumber <= count
  {
    if count > 0 {
      RowMembership(hall, row, count - 1, s);
    }
  }

  /** A seat is in the grid exactly when it belongs to the hall and its row and
      seat numbers lie in 1..rows and 1..seatsPerRow. */
  lemma {:induction false} GridMembership(hall: HallId, rows: int, seatsPerRow: int, s: Seat)
    ensures s in SeatGrid(hall, rows, seatsPerRow)
        <==> s.hall == hall && 1 <= s.rowNumber <= rows && 1 <= s.seatNumber <= seatsPerRow
  {
    if rows > 0 {
      GridMembership(hall, rows - 1, seatsPerRow, s);
      RowMembership(hall, rows, seatsPerRow, s);
    }
  }

  lemma {:induction false} RowAscending(hall: HallId, row: int, count: int)
    ensures forall i, j | 0 <= i < j < |RowSeats(hall, row, count)| ::
      Before(RowSeats(hall, row, count)[i], RowSeats(hall, row, count)[j])
  {
    if count > 0 {
      RowAscending(hall, row, count - 1);
      var prev := RowSeats(hall, row, count - 1);
      forall s | s in prev ensures s.seatNumber < count && s.rowNumber == row {
        RowMembership(hall, row, count - 1, s);
      }
    }
  }

  /** The grid is in row-major order: rows ascending and, within a row, seat
      numbers ascending. */
  lemma {:induction false} GridRowMajor(hall: HallId, rows: int, seatsPerRow: int)
    ensures forall i, j | 0 <= i < j < |SeatGrid(hall, rows, seatsPerRow)| ::
      Before(SeatGrid(hall, rows, seatsPerRow)[i], SeatGrid(hall, rows, seatsPerRow)[j])
  {
    if rows > 0 {
      var prefix := SeatGrid(hall, rows - 1, seatsPerRow);
      var row := RowSeats(hall, rows, seatsPerRow);
      GridRowMajor(hall, rows - 1, seatsPerRow);
      RowAscending(hall, rows, seatsPerRow);
      forall s | s in prefix ensures s.rowNumber < rows {
        GridMembership(hall, rows - 1, seatsPerRow, s);
      }
      forall s | s in row ensures s.rowNumber == rows {
        RowMembership(hall, rows, seatsPerRow, s);
      }
      var grid := prefix + row;
      forall i, j | 0 <= i < j < |grid| ensures Before(grid[i], grid[j]) {
        if j < |prefix| {
          assert grid[i] == prefix[i] && grid[j] == prefix[j];
        } else if i >= |prefix| {
          assert grid[i] == row[i - |prefix|] && grid[j] == row[j - |prefix|];
        } else {
          assert grid[i] in prefix && grid[j] in row;
        }
      }
    }
  }

  /** No (row, seat) position is generated twice. */
  lemma GridNoDuplicates(hall: HallId, rows: int, seatsPerRow: int)
    ensures forall i, j | 0 <= i < j < |SeatGrid(hall, rows, seatsPerRow)| ::
      SeatGrid(hall, rows, seatsPerRow)[i] != SeatGrid(hall, rows, seatsPerRow)[j]
  {
    GridRowMajor(hall, rows, seatsPerRow);
  }
}
