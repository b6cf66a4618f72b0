/** The CRC-32 of one published sample. */
module Crc32Sample {
  import opened Crc32

  const SAMPLE: seq<bv8> := [0x31, 0x32, 0x33, 0x34, 0x35, 0x36, 0x37, 0x38, 0x39]

  lemma NextSample(k: nat, was: bv32, now: bv32)
    requires k < |SAMPLE| && Run(ALL_ONES, SAMPLE[..k]) == Register(was)
    requires TableStep(Register(was), SAMPLE[k]) == Register(now)
    ensures Run(ALL_ONES, SAMPLE[..k + 1]) == Register(now)
  {
    TableStepIsByteStep(Register(was), SAMPLE[k]);
    hide ByteStep, TableStep, SAMPLE, ALL_ONES;
    assert SAMPLE[..k + 1][..k] == SAMPLE[..k];
  }

  lemma Step1()
    ensures TableStep(Register(0xFFFFFFFF), 0x31) == Register(0x7C231048)
  {
    assert LowIndex(0xFFFFFFFF, 0x31) == 0xCE;
  }

  lemma Step2()
    ensures TableStep(Register(0x7C231048), 0x32) == Register(0xB0ACBB32)
  {
    assert LowIndex(0x7C231048, 0x32) == 0x7A;
  }

  lemma Step3()
    ensures TableStep(Register(0xB0ACBB32), 0x33) == Register(0x77B79C2D)
  {
    assert LowIndex(0xB0ACBB32, 0x33) == 0x01;
  }

  lemma Step4()
    ensures TableStep(Register(0x77B79C2D), 0x34) == Register(0x641C1F5C)
  {
    assert LowIndex(0x77B79C2D, 0x34) == 0x19;
  }

  lemma Step5()
    ensures TableStep(Register(0x641C1F5C), 0x35) == Register(0x340AC5E3)
  {
    assert LowIndex(0x641C1F5C, 0x35) == 0x69;
  }

  lemma Step6()
    ensures TableStep(Register(0x340AC5E3), 0x36) == Register(0xF68D2C9E)
  {
    assert LowIndex(0x340AC5E3, 0x36) == 0xD5;
  }

  lemma Step7()
    ensures TableStep(Register(0xF68D2C9E), 0x37) == Register(0xAFFC9660)
  {
    assert LowIndex(0xF68D2C9E, 0x37) == 0xA9;
  }

  lemma Step8()
    ensures TableStep(Register(0xAFFC9660), 0x38) == Register(0x651F2550)
  {
    assert LowIndex(0xAFFC9660, 0x38) == 0x58;
  }

  lemma Step9()
    ensures TableStep(Register(0x651F2550), 0x39) == Register(0x340BC6D9)
  {
    assert LowIndex(0x651F2550, 0x39) == 0x69;
  }

  lemma Sample3()
    ensures Run(ALL_ONES, SAMPLE[..3]) == Register(0x77B79C2D)
  {
    assert Run(ALL_ONES, SAMPLE[..0]) == ALL_ONES;
    hide Run, TableStep;
    Step1();
    NextSample(0, 0xFFFFFFFF, 0x7C231048);
    Step2();
    NextSample(1, 0x7C231048, 0xB0ACBB32);
    Step3();
    NextSample(2, 0xB0ACBB32, 0x77B79C2D);
  }

  lemma Sample6()
    ensures Run(ALL_ONES, SAMPLE[..6]) == Register(0xF68D2C9E)
  {
    hide Run, TableStep;
    Sample3();
    Step4();
    NextSample(3, 0x77B79C2D, 0x641C1F5C);
    Step5();
    NextSample(4, 0x641C1F5C, 0x340AC5E3);
    Step6();
    NextSample(5, 0x340AC5E3, 0xF68D2C9E);
  }

  lemma Sample9()
    ensures Run(ALL_ONES, SAMPLE[..9]) == Register(0x340BC6D9)
  {
    hide Run, TableStep;
    Sample6();
    Step7();
    NextSample(6, 0xF68D2C9E, 0xAFFC9660);
    Step8();
    NextSample(7, 0xAFFC9660, 0x651F2550);
    Step9();
    NextSample(8, 0x651F2550, 0x340BC6D9);
  }

  /** The check value of CRC-32: the text "123456789"; the CRC of no bytes is the one it continues. */
  lemma SampleCrc(crc: Register)
    ensures Crc(Register(0), SAMPLE) == Register(0xCBF4_3926)
    ensures Crc(crc, []) == crc
  {
    Sample9();
    assert SAMPLE[..9] == SAMPLE;
    XorUndone(crc, ALL_ONES);
    hide Run;
  }
}
