/** The ring of the buffer pool's FIFO: the parts of Fifo_Queue and Fifo_Dequeue of lib_app/BufPool.cpp that run
    under the mutex. */
module AppFifos {

  datatype Ring<T> = Ring(maxElem: nat, tail: nat, head: nat, elems: seq<T>, number: nat)
  {
    ghost predicate Valid()
    {
      && |elems| == maxElem && tail < maxElem && head < maxElem && number < maxElem
      && tail == Wrap(head + number)
    }

    function Wrap(i: nat): nat
      requires i < 2 * maxElem
    {
      if i < maxElem then i else i - maxElem
    }

    /** The abstract queue, oldest element first. */
    ghost function Items(): (q: seq<T>)
      requires Valid()
      ensures |q| == number
    {
      seq(number, i requires 0 <= i < number => elems[Wrap(head + i)])
    }

    function Push(x: T): Ring<T>
      requires Valid()
    {
      Ring(maxElem, (tail + 1) % maxElem, head, elems[tail := x], number + 1)
    }

    function Pop(): (T, Ring<T>)
      requires Valid() && number > 0
    {
      (elems[head], Ring(maxElem, tail, (head + 1) % maxElem, elems, number - 1))
    }

    lemma WrapStep(i: nat)
      requires i < maxElem
      ensures (i + 1) % maxElem == Wrap(i + 1)
    {
    }

    /** With room for one more, pushing appends to the abstract queue. */
    lemma PushAppends(x: T)
      requires Valid() && number + 1 < maxElem
      ensures Push(x).Valid() && Push(x).Items() == Items() + [x]
    {
      WrapStep(tail);
      var r := Push(x);
      forall i | 0 <= i < number + 1 ensures r.Items()[i] == (Items() + [x])[i] {
        if i < number {
          assert Wrap(head + i) != tail;
        }
      }
    }

    /** Popping takes the oldest element. */
    lemma PopTakesOldest()
      requires Valid() && number > 0
      ensures Pop().1.Valid() && Items() == [Pop().0] + Pop().1.Items()
    {
      WrapStep(head);
      var r := Pop().1;
      forall i | 0 <= i < number ensures Items()[i] == ([Pop().0] + r.Items())[i] {
        if i > 0 {
          assert r.Wrap(r.head + (i - 1)) == Wrap(head + i);
        }
      }
    }
  }

  class AppFifo<T(0)> {
    var m_zMaxElem: nat
    var m_zTail: nat
    var m_zHead: nat
    var m_ElemBuffer: array<T>
    var m_iBufNumber: nat
    var m_isDecommited: bool

    ghost function View(): Ring<T>
      reads this, m_ElemBuffer
    {
      Ring(m_zMaxElem, m_zTail, m_zHead, m_ElemBuffer[..], m_iBufNumber)
    }

    ghost predicate Valid()
      reads this, m_ElemBuffer
    {
      View().Valid()
    }

    constructor (zMaxElem: nat)
      ensures Valid() && fresh(m_ElemBuffer)
      ensures View().Items() == [] && m_zMaxElem == zMaxElem + 1 && !m_isDecommited
    {
      m_zMaxElem := zMaxElem + 1;
      m_zTail := 0;
      m_zHead := 0;
      m_iBufNumber := 0;
      m_isDecommited := false;
      m_ElemBuffer := new T[zMaxElem + 1];
    }

    method Store(pElem: T)
      requires Valid() && m_iBufNumber + 1 < m_zMaxElem
      modifies this`m_zTail, this`m_iBufNumber, m_ElemBuffer
      ensures Valid() && View() == old(View()).Push(pElem)
      ensures View().Items() == old(View().Items()) + [pElem]
    {
      ghost var was := View();
      was.PushAppends(pElem);
      m_ElemBuffer[m_zTail] := pElem;
      m_zTail := (m_zTail + 1) % m_zMaxElem;
      m_iBufNumber := m_iBufNumber + 1;
      assert View() == was.Push(pElem);
    }

    method Take() returns (pElem: T)
      requires Valid() && m_iBufNumber > 0
      modifies this`m_zHead, this`m_iBufNumber
      ensures Valid() && (pElem, View()) == old(View()).Pop()
      ensures old(View().Items()) == [pElem] + View().Items()
    {
      ghost var was := View();
      was.PopTakesOldest();
      pElem := m_ElemBuffer[m_zHead];
      m_zHead := (m_zHead + 1) % m_zMaxElem;
      m_iBufNumber := m_iBufNumber - 1;
      assert View() == was.Pop().1;
    }
  }
}
