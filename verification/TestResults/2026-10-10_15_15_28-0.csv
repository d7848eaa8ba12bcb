TestResult.DisplayName,TestResult.Outcome,TestResult.Duration,TestResult.ResourceCount,RandomSeed
Orders.ValidPrefixCons (correctness),Passed,00:00:00.5891726,981230,5
Orders.ValidPrefixCons (well-formedness),Passed,00:00:00.2201090,66100,5
